/** The quota preflight: probe runtimes from a shared pool, excluding what was tried and which
    quota scopes already succeeded, until enough distinct scopes are known to be healthy.

    The pool router is arbitrary; `Faithful` is what the search needs of it. Texts are
    taken as already trimmed. */
module Preflight {
  import opened Counting
  import opened Wrappers

  datatype Runtime = Runtime(scopeKey: string, email: string)

  type Pool = map<string, Runtime>

  /** What the router answers; a non-empty error, or an empty runtime id, means nothing was selected. */
  datatype Bundle = Bundle(error: string, runtimeId: string, scopeKey: string, email: string)

  type Resolver = (nat, set<string>, set<string>) -> Bundle

  datatype Arguments = Arguments(
    excludeRuntimeIds: seq<string>, targetSuccesses: int, maxRuntimeProbes: int,
    requiredEmail: string, continueAfterSuccess: bool, cliCompatible: bool)

  datatype AttemptStatus = Blocked(error: string) | IdentityMismatch | Available(scope: string) | Failed

  datatype Attempt = Attempt(number: nat, runtimeId: string, status: AttemptStatus)

  datatype Status = StatusAvailable | StatusBlocked | StatusFailed

  datatype Report = Report(
    status: Status, successfulIds: seq<string>, scopes: seq<string>, selected: Option<string>, attempts: seq<Attempt>)

  /** The scope a success is counted under. */
  function CountedScope(scopeKey: string, runtimeId: string): string {
    if scopeKey != "" then scopeKey else "runtime:" + runtimeId
  }

  function InitialExclusions(args: Arguments): set<string> {
    set id | id in args.excludeRuntimeIds && id != ""
  }

  ghost function Eligible(pool: Pool, args: Arguments): set<string> {
    set id | id in pool && id !in InitialExclusions(args)
  }

  /** A probe would run and succeed. */
  predicate Usable(pool: Pool, args: Arguments, healthy: string -> bool, id: string) {
    id in pool && healthy(id) && (args.requiredEmail != "" ==> pool[id].email == args.requiredEmail)
  }

  function ScopeOf(pool: Pool, id: string): string
    requires id in pool
  {
    CountedScope(pool[id].scopeKey, id)
  }

  ghost function UsableScopes(pool: Pool, args: Arguments, healthy: string -> bool): set<string> {
    set id | id in Eligible(pool, args) && Usable(pool, args, healthy, id) :: ScopeOf(pool, id)
  }

  ghost predicate Offered(pool: Pool, ids: set<string>, scopes: set<string>, id: string) {
    id in pool && id !in ids && ScopeOf(pool, id) !in scopes
  }

  predicate Selects(b: Bundle) { b.error == "" && b.runtimeId != "" }

  ghost predicate Honest(pool: Pool, ids: set<string>, scopes: set<string>, b: Bundle) {
    if Selects(b)
    then Offered(pool, ids, scopes, b.runtimeId) && pool[b.runtimeId] == Runtime(b.scopeKey, b.email)
    else forall id :: !Offered(pool, ids, scopes, id)
  }

  /** The router answers with a non-excluded runtime of a non-excluded scope whenever the pool has one. */
  ghost predicate Faithful(resolve: Resolver, pool: Pool) {
    forall n, ids, scopes :: Honest(pool, ids, scopes, resolve(n, ids, scopes))
  }

  predicate NoDuplicates(s: seq<string>) {
    forall i, j :: 0 <= i < j < |s| ==> s[i] != s[j]
  }

  function Elements(s: seq<string>): set<string> { set x | x in s }

  lemma OneMoreElement(s: seq<string>, x: string)
    ensures Elements(s + [x]) == Elements(s) + {x}
    ensures x in Elements(s) <==> x in s
  {
  }

  /** The runtimes tried, that is all attempts but a final blocked one. */
  ghost function TriedIds(attempts: seq<Attempt>): seq<string> {
    if attempts == [] then []
    else
      var last := attempts[|attempts| - 1];
      TriedIds(attempts[..|attempts| - 1]) + if last.status.Blocked? then [] else [last.runtimeId]
  }

  lemma {:induction false} DistinctSize(s: seq<string>)
    requires NoDuplicates(s)
    ensures |Elements(s)| == |s|
  {
    if s == [] {
    } else {
      var front, x := s[..|s| - 1], s[|s| - 1];
      DistinctSize(front);
      assert Elements(s) == Elements(front) + {x};
    }
  }

  /** What the search knows after trying `tried`: all tried runtimes were distinct and eligible, the
      counted scopes are usable ones, and every tried usable runtime has its scope counted. */
  ghost predicate Progress(
    pool: Pool, args: Arguments, healthy: string -> bool, tried: seq<string>, scopes: seq<string>)
  {
    && NoDuplicates(tried)
    && Elements(tried) <= Eligible(pool, args)
    && Elements(scopes) <= UsableScopes(pool, args, healthy)
    && (forall id :: id in tried && Usable(pool, args, healthy, id) ==> id in pool && ScopeOf(pool, id) in scopes)
  }

  lemma ProgressOnMiss(
    pool: Pool, args: Arguments, healthy: string -> bool, tried: seq<string>, scopes: seq<string>, id: string)
    requires Progress(pool, args, healthy, tried, scopes)
    requires id in Eligible(pool, args) && id !in tried && !Usable(pool, args, healthy, id)
    ensures Progress(pool, args, healthy, tried + [id], scopes)
  {
  }

  lemma ProgressOnHit(
    pool: Pool, args: Arguments, healthy: string -> bool, tried: seq<string>, scopes: seq<string>, id: string)
    requires Progress(pool, args, healthy, tried, scopes)
    requires id in Eligible(pool, args) && id !in tried && Usable(pool, args, healthy, id)
    ensures Progress(pool, args, healthy, tried + [id], scopes + [ScopeOf(pool, id)])
  {
    assert ScopeOf(pool, id) in UsableScopes(pool, args, healthy);
  }

  /** When nothing is left to offer, all usable scopes have been counted. */
  lemma ExhaustedMeansComplete(
    pool: Pool, args: Arguments, healthy: string -> bool, tried: seq<string>, scopes: seq<string>)
    requires Progress(pool, args, healthy, tried, scopes)
    requires forall id :: !Offered(pool, InitialExclusions(args) + Elements(tried), Elements(scopes), id)
    ensures Elements(scopes) == UsableScopes(pool, args, healthy)
  {
    forall scope | scope in UsableScopes(pool, args, healthy) ensures scope in scopes {
      var id :| id in Eligible(pool, args) && Usable(pool, args, healthy, id) && ScopeOf(pool, id) == scope;
      assert !Offered(pool, InitialExclusions(args) + Elements(tried), Elements(scopes), id);
    }
  }

  /** When as many runtimes were tried as were eligible, all usable scopes have been counted. */
  lemma AllTriedMeansComplete(
    pool: Pool, args: Arguments, healthy: string -> bool, tried: seq<string>, scopes: seq<string>)
    requires Progress(pool, args, healthy, tried, scopes)
    requires |tried| >= |Eligible(pool, args)|
    ensures Elements(scopes) == UsableScopes(pool, args, healthy)
  {
    DistinctSize(tried);
    SameWhenFull(Elements(tried), Eligible(pool, args));
    forall scope | scope in UsableScopes(pool, args, healthy) ensures scope in scopes {
      var id :| id in Eligible(pool, args) && Usable(pool, args, healthy, id) && ScopeOf(pool, id) == scope;
      assert id in Elements(tried);
    }
  }

  lemma TriedFitsPool(pool: Pool, args: Arguments, healthy: string -> bool, tried: seq<string>, scopes: seq<string>)
    requires Progress(pool, args, healthy, tried, scopes)
    ensures |tried| <= |Eligible(pool, args)|
  {
    DistinctSize(tried);
    SubsetSize(Elements(tried), Eligible(pool, args));
  }

  // ---------- The search as a function of its progress ----------

  datatype Search = Search(
    attempts: seq<Attempt>, successfulIds: seq<string>, scopes: seq<string>, excludedIds: set<string>)

  function Begin(args: Arguments): Search { Search([], [], [], InitialExclusions(args)) }

  /** The report of giving up at a bundle that selects nothing. */
  function GiveUp(s: Search, b: Bundle): Report {
    var error := if b.error != "" then b.error else "missing selected_runtime_id";
    Report(StatusBlocked, s.successfulIds, s.scopes, None,
           s.attempts + [Attempt(|s.attempts| + 1, b.runtimeId, Blocked(error))])
  }

  /** The search state after a runtime that does not count. */
  function Missed(s: Search, id: string, status: AttemptStatus): Search {
    s.(attempts := s.attempts + [Attempt(|s.attempts| + 1, id, status)], excludedIds := s.excludedIds + {id})
  }

  /** The search state after a successful probe. */
  function Counted(s: Search, id: string, scope: string): Search {
    Search(s.attempts + [Attempt(|s.attempts| + 1, id, Available(scope))], s.successfulIds + [id],
           if scope in s.scopes then s.scopes else s.scopes + [scope], s.excludedIds + {id})
  }

  /** One attempt at a selected bundle. */
  function Tried(s: Search, args: Arguments, healthy: string -> bool, b: Bundle): Search {
    if args.requiredEmail != "" && b.email != args.requiredEmail then Missed(s, b.runtimeId, IdentityMismatch)
    else if healthy(b.runtimeId) then Counted(s, b.runtimeId, CountedScope(b.scopeKey, b.runtimeId))
    else Missed(s, b.runtimeId, Failed)
  }

  predicate Reached(s: Search, args: Arguments) { |Elements(s.scopes)| >= Max1(args.targetSuccesses) }

  datatype Move = Stop(report: Report) | Go(next: Search)

  function MoveOn(args: Arguments, resolve: Resolver, healthy: string -> bool, s: Search): Move {
    var b := resolve(|s.attempts|, s.excludedIds, Elements(s.scopes));
    if !Selects(b) then Stop(GiveUp(s, b))
    else
      var t := Tried(s, args, healthy, b);
      if t.successfulIds != s.successfulIds && Reached(t, args) && !args.continueAfterSuccess
      then Stop(Report(StatusAvailable, t.successfulIds, t.scopes, Some(b.runtimeId), t.attempts))
      else Go(t)
  }

  function Outcome(args: Arguments, resolve: Resolver, healthy: string -> bool, s: Search, budget: nat): Report
    decreases budget
  {
    if budget == 0 then
      Report(if Reached(s, args) then StatusAvailable else StatusFailed, s.successfulIds, s.scopes, None, s.attempts)
    else
      match MoveOn(args, resolve, healthy, s)
      case Stop(report) => report
      case Go(next) => Outcome(args, resolve, healthy, next, budget - 1)
  }

  lemma ExhaustedOutcome(args: Arguments, resolve: Resolver, healthy: string -> bool, s: Search)
    ensures Outcome(args, resolve, healthy, s, 0)
         == Report(if Reached(s, args) then StatusAvailable else StatusFailed,
                   s.successfulIds, s.scopes, None, s.attempts)
  {
  }

  lemma BlockedOutcome(args: Arguments, resolve: Resolver, healthy: string -> bool, s: Search, budget: nat)
    requires budget > 0 && !Selects(resolve(|s.attempts|, s.excludedIds, Elements(s.scopes)))
    ensures Outcome(args, resolve, healthy, s, budget)
         == GiveUp(s, resolve(|s.attempts|, s.excludedIds, Elements(s.scopes)))
  {
  }

  lemma MissedOutcome(args: Arguments, resolve: Resolver, healthy: string -> bool, s: Search, budget: nat, b: Bundle)
    requires budget > 0 && b == resolve(|s.attempts|, s.excludedIds, Elements(s.scopes)) && Selects(b)
    requires (args.requiredEmail != "" && b.email != args.requiredEmail) || !healthy(b.runtimeId)
    ensures var status := if args.requiredEmail != "" && b.email != args.requiredEmail
                          then IdentityMismatch else Failed;
            Outcome(args, resolve, healthy, s, budget)
            == Outcome(args, resolve, healthy, Missed(s, b.runtimeId, status), budget - 1)
  {
  }

  lemma CountedOutcome(
    args: Arguments, resolve: Resolver, healthy: string -> bool, attempts: seq<Attempt>, successfulIds: seq<string>,
    scopes: seq<string>, scopeSet: set<string>, excludedIds: set<string>, budget: nat)
    requires scopeSet == Elements(scopes) && budget > 0
    requires var b := resolve(|attempts|, excludedIds, scopeSet);
             Selects(b) && (args.requiredEmail != "" ==> b.email == args.requiredEmail) && healthy(b.runtimeId)
    ensures var b := resolve(|attempts|, excludedIds, scopeSet);
            var id, scope := b.runtimeId, CountedScope(b.scopeKey, b.runtimeId);
            var scopes' := if scope in scopeSet then scopes else scopes + [scope];
            var scopeSet' := if scope in scopeSet then scopeSet else scopeSet + {scope};
            var attempts' := attempts + [Attempt(|attempts| + 1, id, Available(scope))];
            && scopeSet' == Elements(scopes')
            && Outcome(args, resolve, healthy, Search(attempts, successfulIds, scopes, excludedIds), budget)
               == if |scopeSet'| >= Max1(args.targetSuccesses) && !args.continueAfterSuccess
                  then Report(StatusAvailable, successfulIds + [id], scopes', Some(id), attempts')
                  else Outcome(args, resolve, healthy,
                               Search(attempts', successfulIds + [id], scopes', excludedIds + {id}), budget - 1)
  {
    var s, b := Search(attempts, successfulIds, scopes, excludedIds), resolve(|attempts|, excludedIds, scopeSet);
    OneMoreElement(scopes, CountedScope(b.scopeKey, b.runtimeId));
    var t := Tried(s, args, healthy, b);
    assert |t.successfulIds| == |successfulIds| + 1;
  }

  method RunPreflight(args: Arguments, resolve: Resolver, healthy: string -> bool) returns (report: Report)
    ensures !args.cliCompatible ==> report == Report(StatusBlocked, [], [], None, [])
    ensures args.cliCompatible ==>
              report == Outcome(args, resolve, healthy, Begin(args), Max1(args.maxRuntimeProbes))
  {
    var excludedIds := set id | id in args.excludeRuntimeIds && id != "";
    var target := Max1(args.targetSuccesses);
    if !args.cliCompatible {
      return Report(StatusBlocked, [], [], None, []);
    }
    var attempts, successfulIds, scopes := [], [], [];
    var scopeSet, excludedScopes: set<string> := {}, {};
    var index := 0;
    ghost var final := Outcome(args, resolve, healthy, Begin(args), Max1(args.maxRuntimeProbes));
    while index < Max1(args.maxRuntimeProbes)
      invariant 0 <= index == |attempts| <= Max1(args.maxRuntimeProbes)
      invariant scopeSet == excludedScopes == Elements(scopes)
      invariant final == Outcome(args, resolve, healthy, Search(attempts, successfulIds, scopes, excludedIds),
                                 Max1(args.maxRuntimeProbes) - index)
    {
      ghost var s, budget := Search(attempts, successfulIds, scopes, excludedIds), Max1(args.maxRuntimeProbes) - index;
      var bundle := resolve(index, excludedIds, excludedScopes);
      var id := bundle.runtimeId;
      if !Selects(bundle) { BlockedOutcome(args, resolve, healthy, s, budget); }
      if bundle.error != "" {
        return Report(StatusBlocked, successfulIds, scopes, None,
                      attempts + [Attempt(index + 1, id, Blocked(bundle.error))]);
      }
      if id == "" {
        return Report(StatusBlocked, successfulIds, scopes, None,
                      attempts + [Attempt(index + 1, id, Blocked("missing selected_runtime_id"))]);
      }
      index := index + 1;
      if args.requiredEmail != "" && bundle.email != args.requiredEmail {
        MissedOutcome(args, resolve, healthy, s, budget, bundle);
        attempts := attempts + [Attempt(index, id, IdentityMismatch)];
        excludedIds := excludedIds + {id};
        continue;
      }
      if healthy(id) {
        var scope := CountedScope(bundle.scopeKey, id);
        CountedOutcome(args, resolve, healthy, attempts, successfulIds, scopes, scopeSet, excludedIds, budget);
        attempts := attempts + [Attempt(index, id, Available(scope))];
        successfulIds := successfulIds + [id];
        if scope !in scopeSet {
          scopes := scopes + [scope];
          scopeSet := scopeSet + {scope};
          excludedScopes := excludedScopes + {scope};
        }
        excludedIds := excludedIds + {id};
        if |scopeSet| >= target && !args.continueAfterSuccess {
          return Report(StatusAvailable, successfulIds, scopes, Some(id), attempts);
        }
        continue;
      }
      MissedOutcome(args, resolve, healthy, s, budget, bundle);
      attempts := attempts + [Attempt(index, id, Failed)];
      excludedIds := excludedIds + {id};
    }
    ExhaustedOutcome(args, resolve, healthy, Search(attempts, successfulIds, scopes, excludedIds));
    report := Report(if |scopeSet| >= target then StatusAvailable else StatusFailed,
                     successfulIds, scopes, None, attempts);
  }

  // ---------- What the search guarantees ----------

  /** Whatever the router answers, counted scopes are distinct and "available" means the target was met. */
  lemma {:induction false} AvailableMeansTarget(
    args: Arguments, resolve: Resolver, healthy: string -> bool, s: Search, budget: nat)
    requires NoDuplicates(s.scopes)
    ensures var r := Outcome(args, resolve, healthy, s, budget);
            && NoDuplicates(r.scopes)
            && s.attempts <= r.attempts && |r.attempts| <= |s.attempts| + budget
            && (r.status.StatusAvailable? ==> |r.scopes| >= Max1(args.targetSuccesses))
    decreases budget
  {
    if budget == 0 {
    } else {
      var b := resolve(|s.attempts|, s.excludedIds, Elements(s.scopes));
      if Selects(b) {
        var t := Tried(s, args, healthy, b);
        AvailableMeansTarget(args, resolve, healthy, t, budget - 1);
        DistinctSize(t.scopes);
      }
    }
    DistinctSize(s.scopes);
  }

  /** A search state reached with a faithful router. */
  ghost predicate OnTrack(pool: Pool, args: Arguments, healthy: string -> bool, s: Search) {
    && Progress(pool, args, healthy, TriedIds(s.attempts), s.scopes)
    && s.excludedIds == InitialExclusions(args) + Elements(TriedIds(s.attempts))
    && NoDuplicates(s.scopes) && |s.successfulIds| == |s.scopes|
    && |TriedIds(s.attempts)| == |s.attempts|
  }

  /** Each attempt takes an eligible runtime never tried before, so the unexplored pool strictly shrinks. */
  lemma TriedStaysOnTrack(pool: Pool, args: Arguments, healthy: string -> bool, s: Search, b: Bundle)
    requires OnTrack(pool, args, healthy, s)
    requires Selects(b) && Honest(pool, s.excludedIds, Elements(s.scopes), b)
    ensures OnTrack(pool, args, healthy, Tried(s, args, healthy, b))
    ensures b.runtimeId in Eligible(pool, args) - Elements(TriedIds(s.attempts))
    ensures Eligible(pool, args) - Elements(TriedIds(Tried(s, args, healthy, b).attempts))
         == Eligible(pool, args) - Elements(TriedIds(s.attempts)) - {b.runtimeId}
  {
    var t, id := Tried(s, args, healthy, b), b.runtimeId;
    assert t.attempts[..|t.attempts| - 1] == s.attempts;
    var tried := TriedIds(s.attempts);
    assert TriedIds(t.attempts) == tried + [id];
    assert id in Eligible(pool, args) && id !in Elements(tried);
    assert Elements(tried + [id]) == Elements(tried) + {id};
    if Usable(pool, args, healthy, id) { ProgressOnHit(pool, args, healthy, tried, s.scopes, id); }
    else { ProgressOnMiss(pool, args, healthy, tried, s.scopes, id); }
  }

  ghost predicate Complete(pool: Pool, args: Arguments, healthy: string -> bool, scopes: seq<string>) {
    Elements(scopes) == UsableScopes(pool, args, healthy)
  }

  /** What every outcome of a faithful search satisfies, relative to the budget it still had. */
  ghost predicate GoodOutcome(pool: Pool, args: Arguments, healthy: string -> bool, r: Report, spare: int) {
    && NoDuplicates(TriedIds(r.attempts)) && Elements(TriedIds(r.attempts)) <= Eligible(pool, args)
    && NoDuplicates(r.scopes) && |r.successfulIds| == |r.scopes|
    && Elements(r.scopes) <= UsableScopes(pool, args, healthy)
    && (r.status.StatusBlocked? ==> Complete(pool, args, healthy, r.scopes))
    && (r.status.StatusBlocked? && !args.continueAfterSuccess ==> |r.scopes| < Max1(args.targetSuccesses))
    && (r.status.StatusFailed? ==> |r.scopes| < Max1(args.targetSuccesses))
    && (r.status.StatusFailed? && spare >= 0 ==> Complete(pool, args, healthy, r.scopes))
    && (r.status.StatusAvailable? ==> |r.scopes| >= Max1(args.targetSuccesses))
    && (args.continueAfterSuccess && spare > 0 ==> r.status.StatusBlocked?)
  }

  lemma OutOfBudget(pool: Pool, args: Arguments, resolve: Resolver, healthy: string -> bool, s: Search)
    requires OnTrack(pool, args, healthy, s)
    ensures GoodOutcome(pool, args, healthy, Outcome(args, resolve, healthy, s, 0),
                        |s.attempts| - |Eligible(pool, args)|)
  {
    var tried := TriedIds(s.attempts);
    TriedFitsPool(pool, args, healthy, tried, s.scopes);
    if |s.attempts| >= |Eligible(pool, args)| { AllTriedMeansComplete(pool, args, healthy, tried, s.scopes); }
    DistinctSize(s.scopes);
  }

  lemma NothingSelected(pool: Pool, args: Arguments, healthy: string -> bool, s: Search, b: Bundle, spare: int)
    requires OnTrack(pool, args, healthy, s)
    requires !Selects(b) && Honest(pool, s.excludedIds, Elements(s.scopes), b)
    requires args.continueAfterSuccess || |s.scopes| < Max1(args.targetSuccesses)
    ensures GoodOutcome(pool, args, healthy, GiveUp(s, b), spare)
  {
    var r := GiveUp(s, b);
    assert r.attempts[..|r.attempts| - 1] == s.attempts;
    assert TriedIds(r.attempts) == TriedIds(s.attempts);
    ExhaustedMeansComplete(pool, args, healthy, TriedIds(s.attempts), s.scopes);
  }

  lemma TargetReached(pool: Pool, args: Arguments, healthy: string -> bool, t: Search, selected: string, spare: int)
    requires OnTrack(pool, args, healthy, t) && !args.continueAfterSuccess && Reached(t, args)
    ensures GoodOutcome(pool, args, healthy,
                        Report(StatusAvailable, t.successfulIds, t.scopes, Some(selected), t.attempts), spare)
  {
    DistinctSize(t.scopes);
  }

  lemma MoveIsGood(pool: Pool, args: Arguments, resolve: Resolver, healthy: string -> bool, s: Search, spare: int)
    requires Faithful(resolve, pool) && OnTrack(pool, args, healthy, s)
    requires args.continueAfterSuccess || |s.scopes| < Max1(args.targetSuccesses)
    ensures match MoveOn(args, resolve, healthy, s)
            case Stop(r) => GoodOutcome(pool, args, healthy, r, spare)
            case Go(t) =>
              && OnTrack(pool, args, healthy, t) && |t.attempts| == |s.attempts| + 1
              && (args.continueAfterSuccess || |t.scopes| < Max1(args.targetSuccesses))
  {
    var b := resolve(|s.attempts|, s.excludedIds, Elements(s.scopes));
    assert Honest(pool, s.excludedIds, Elements(s.scopes), b);
    if !Selects(b) {
      NothingSelected(pool, args, healthy, s, b, spare);
    } else {
      TriedStaysOnTrack(pool, args, healthy, s, b);
      var t := Tried(s, args, healthy, b);
      DistinctSize(t.scopes);
      if Reached(t, args) && !args.continueAfterSuccess { TargetReached(pool, args, healthy, t, b.runtimeId, spare); }
    }
  }

  lemma {:induction false} SearchIsGood(
    pool: Pool, args: Arguments, resolve: Resolver, healthy: string -> bool, s: Search, budget: nat)
    requires Faithful(resolve, pool) && OnTrack(pool, args, healthy, s)
    requires args.continueAfterSuccess || |s.scopes| < Max1(args.targetSuccesses)
    ensures GoodOutcome(pool, args, healthy, Outcome(args, resolve, healthy, s, budget),
                        |s.attempts| + budget - |Eligible(pool, args)|)
    decreases budget
  {
    if budget == 0 {
      OutOfBudget(pool, args, resolve, healthy, s);
    } else {
      MoveIsGood(pool, args, resolve, healthy, s, |s.attempts| + budget - |Eligible(pool, args)|);
      var move := MoveOn(args, resolve, healthy, s);
      if move.Go? { SearchIsGood(pool, args, resolve, healthy, move.next, budget - 1); }
    }
  }

  lemma BeginOnTrack(pool: Pool, args: Arguments, healthy: string -> bool)
    ensures OnTrack(pool, args, healthy, Begin(args))
  {
  }

  /** With a faithful router and a probe for every eligible runtime, the default mode answers
      "available" exactly when enough distinct usable scopes exist among the eligible runtimes;
      no runtime is tried twice and no scope is counted twice. */
  lemma AvailableExactlyWhenEnoughScopes(
    pool: Pool, args: Arguments, resolve: Resolver, healthy: string -> bool)
    requires Faithful(resolve, pool) && !args.continueAfterSuccess
    ensures var r := Outcome(args, resolve, healthy, Begin(args), Max1(args.maxRuntimeProbes));
            && NoDuplicates(TriedIds(r.attempts)) && Elements(TriedIds(r.attempts)) <= Eligible(pool, args)
            && NoDuplicates(r.scopes) && |r.successfulIds| == |r.scopes|
            && (Max1(args.maxRuntimeProbes) >= |Eligible(pool, args)| ==>
                  (r.status.StatusAvailable?
                   <==> |UsableScopes(pool, args, healthy)| >= Max1(args.targetSuccesses)))
  {
    BeginOnTrack(pool, args, healthy);
    SearchIsGood(pool, args, resolve, healthy, Begin(args), Max1(args.maxRuntimeProbes));
    var r := Outcome(args, resolve, healthy, Begin(args), Max1(args.maxRuntimeProbes));
    DistinctSize(r.scopes);
    SubsetSize(Elements(r.scopes), UsableScopes(pool, args, healthy));
  }

  /** In exhaustive mode, with more probes than eligible runtimes, every usable scope is found and yet
      the answer is always "blocked": the exhausted pool is reported as an error even past the target. */
  lemma ExhaustiveModeIsAlwaysBlocked(
    pool: Pool, args: Arguments, resolve: Resolver, healthy: string -> bool)
    requires Faithful(resolve, pool) && args.continueAfterSuccess
    requires Max1(args.maxRuntimeProbes) > |Eligible(pool, args)|
    ensures var r := Outcome(args, resolve, healthy, Begin(args), Max1(args.maxRuntimeProbes));
            r.status.StatusBlocked? && Elements(r.scopes) == UsableScopes(pool, args, healthy)
  {
    BeginOnTrack(pool, args, healthy);
    SearchIsGood(pool, args, resolve, healthy, Begin(args), Max1(args.maxRuntimeProbes));
  }

  /** Both modes in one: with more probes than eligible runtimes, "available" means "enough usable scopes exist"
      exactly in the default mode or when there are too few of them. */
  lemma AvailabilityIsHonestExactlyWhen(pool: Pool, args: Arguments, resolve: Resolver, healthy: string -> bool)
    requires Faithful(resolve, pool) && Max1(args.maxRuntimeProbes) > |Eligible(pool, args)|
    ensures var r := Outcome(args, resolve, healthy, Begin(args), Max1(args.maxRuntimeProbes));
            var enough := |UsableScopes(pool, args, healthy)| >= Max1(args.targetSuccesses);
            (r.status.StatusAvailable? <==> enough) <==> (!args.continueAfterSuccess || !enough)
  {
    if args.continueAfterSuccess {
      ExhaustiveModeIsAlwaysBlocked(pool, args, resolve, healthy);
    } else {
      AvailableExactlyWhenEnoughScopes(pool, args, resolve, healthy);
    }
  }

  /** A pool of one runtime, "a" of scope "s", and a faithful router for it. */
  function OneRuntimeRouter(n: nat, ids: set<string>, scopes: set<string>): Bundle {
    if "a" in ids || "s" in scopes then Bundle("pool_exhausted", "", "", "") else Bundle("", "a", "s", "")
  }

  lemma OneRuntimeIsFaithful()
    ensures Faithful(OneRuntimeRouter, map["a" := Runtime("s", "")])
  {
    var pool := map["a" := Runtime("s", "")];
    forall n, ids, scopes ensures Honest(pool, ids, scopes, OneRuntimeRouter(n, ids, scopes)) {
      assert ScopeOf(pool, "a") == "s";
    }
  }

  /** With that pool healthy and a target of one, exhaustive mode meets its target and still answers "blocked". */
  lemma TargetMetYetBlocked(args: Arguments)
    requires args == Arguments([], 1, 2, "", true, true)
    ensures var r := Outcome(args, OneRuntimeRouter, _ => true, Begin(args), 2);
            r.status.StatusBlocked? && r.scopes == ["s"] && Max1(args.targetSuccesses) == 1
  {
    var first := MoveOn(args, OneRuntimeRouter, _ => true, Begin(args));
    assert first == Go(Search([Attempt(1, "a", Available("s"))], ["a"], ["s"], {"a"})) by {
      assert InitialExclusions(args) == {};
    }
    assert "s" in Elements(first.next.scopes);
  }

  // ---------- What a report says of its runtimes ----------

  /** Which scopes count as usable: those of the pool's healthy runtimes, not excluded, with the required email if
      there is one; a runtime without a scope is a scope of its own. */
  lemma UsableScopesAre(pool: Pool, args: Arguments, healthy: string -> bool, scope: string)
    ensures scope in UsableScopes(pool, args, healthy)
       <==> exists id :: && id in pool && (id == "" || id !in args.excludeRuntimeIds) && healthy(id)
                         && (args.requiredEmail == "" || pool[id].email == args.requiredEmail)
                         && scope == if pool[id].scopeKey == "" then "runtime:" + id else pool[id].scopeKey
  {
    if scope in UsableScopes(pool, args, healthy) {
      var id :| id in Eligible(pool, args) && Usable(pool, args, healthy, id) && scope == ScopeOf(pool, id);
    }
    if id :| && id in pool && (id == "" || id !in args.excludeRuntimeIds) && healthy(id)
             && (args.requiredEmail == "" || pool[id].email == args.requiredEmail)
             && scope == if pool[id].scopeKey == "" then "runtime:" + id else pool[id].scopeKey
    {
      assert id in Eligible(pool, args) && Usable(pool, args, healthy, id) && scope == ScopeOf(pool, id);
    }
  }

  /** The status of the k-th attempt is what the pool and the probe say of its runtime, which was not excluded. */
  ghost predicate IsTruthful(pool: Pool, args: Arguments, healthy: string -> bool, a: Attempt, k: nat) {
    && a.number == k + 1
    && (!a.status.Blocked? ==> a.runtimeId in pool && a.runtimeId !in args.excludeRuntimeIds)
    && match a.status
       case Blocked(error) => error != ""
       case IdentityMismatch => args.requiredEmail != "" && pool[a.runtimeId].email != args.requiredEmail
       case Available(scope) =>
         && (args.requiredEmail == "" || pool[a.runtimeId].email == args.requiredEmail) && healthy(a.runtimeId)
         && scope == if pool[a.runtimeId].scopeKey == "" then "runtime:" + a.runtimeId else pool[a.runtimeId].scopeKey
       case Failed =>
         (args.requiredEmail == "" || pool[a.runtimeId].email == args.requiredEmail) && !healthy(a.runtimeId)
  }

  ghost predicate AreTruthful(pool: Pool, args: Arguments, healthy: string -> bool, attempts: seq<Attempt>) {
    forall k :: 0 <= k < |attempts| ==> IsTruthful(pool, args, healthy, attempts[k], k)
  }

  /** The runtimes of the successful attempts, in order. */
  ghost function Succeeded(attempts: seq<Attempt>): seq<string> {
    if attempts == [] then []
    else
      var last := attempts[|attempts| - 1];
      Succeeded(attempts[..|attempts| - 1]) + if last.status.Available? then [last.runtimeId] else []
  }

  ghost function ScopesOf(attempts: seq<Attempt>): set<string> {
    set a | a in attempts && a.status.Available? :: a.status.scope
  }

  /** The state's lists agree with its attempts, and nothing the caller excludes can be offered. */
  ghost predicate Agrees(pool: Pool, args: Arguments, healthy: string -> bool, s: Search) {
    && AreTruthful(pool, args, healthy, s.attempts)
    && s.successfulIds == Succeeded(s.attempts) && Elements(s.scopes) == ScopesOf(s.attempts)
    && forall id :: id in args.excludeRuntimeIds && id != "" ==> id in s.excludedIds
  }

  lemma AttemptAgrees(pool: Pool, args: Arguments, healthy: string -> bool, s: Search, b: Bundle)
    requires Agrees(pool, args, healthy, s)
    requires Selects(b) && Honest(pool, s.excludedIds, Elements(s.scopes), b)
    ensures Agrees(pool, args, healthy, Tried(s, args, healthy, b))
  {
    var t := Tried(s, args, healthy, b);
    assert t.attempts[..|t.attempts| - 1] == s.attempts;
    var last := t.attempts[|s.attempts|];
    assert t.attempts == s.attempts + [last];
    assert ScopesOf(t.attempts) == ScopesOf(s.attempts) + if last.status.Available? then {last.status.scope} else {};
  }

  ghost predicate ReportAgrees(pool: Pool, args: Arguments, healthy: string -> bool, r: Report) {
    && AreTruthful(pool, args, healthy, r.attempts)
    && r.successfulIds == Succeeded(r.attempts) && Elements(r.scopes) == ScopesOf(r.attempts)
  }

  lemma GivingUpAgrees(pool: Pool, args: Arguments, healthy: string -> bool, s: Search, b: Bundle)
    requires Agrees(pool, args, healthy, s) && !Selects(b)
    ensures ReportAgrees(pool, args, healthy, GiveUp(s, b))
  {
    var r := GiveUp(s, b);
    assert r.attempts[..|r.attempts| - 1] == s.attempts;
    assert ScopesOf(r.attempts) == ScopesOf(s.attempts);
  }

  lemma MoveAgrees(pool: Pool, args: Arguments, resolve: Resolver, healthy: string -> bool, s: Search)
    requires Faithful(resolve, pool) && Agrees(pool, args, healthy, s)
    ensures match MoveOn(args, resolve, healthy, s)
            case Stop(r) => ReportAgrees(pool, args, healthy, r)
            case Go(t) => Agrees(pool, args, healthy, t)
  {
    var b := resolve(|s.attempts|, s.excludedIds, Elements(s.scopes));
    assert Honest(pool, s.excludedIds, Elements(s.scopes), b);
    if Selects(b) { AttemptAgrees(pool, args, healthy, s, b); } else { GivingUpAgrees(pool, args, healthy, s, b); }
  }

  lemma {:induction false} OutcomeAgrees(
    pool: Pool, args: Arguments, resolve: Resolver, healthy: string -> bool, s: Search, budget: nat)
    requires Faithful(resolve, pool) && Agrees(pool, args, healthy, s)
    ensures ReportAgrees(pool, args, healthy, Outcome(args, resolve, healthy, s, budget))
    decreases budget
  {
    if budget == 0 {
    } else {
      MoveAgrees(pool, args, resolve, healthy, s);
      var move := MoveOn(args, resolve, healthy, s);
      if move.Go? { OutcomeAgrees(pool, args, resolve, healthy, move.next, budget - 1); }
    }
  }

  /** Every report of a faithful search tells the truth: each attempt's status is that of its runtime, none was excluded
      by the caller, and the successes and scopes it lists are those of its attempts. */
  lemma ReportsAreTruthful(pool: Pool, args: Arguments, resolve: Resolver, healthy: string -> bool)
    requires Faithful(resolve, pool)
    ensures var r := Outcome(args, resolve, healthy, Begin(args), Max1(args.maxRuntimeProbes));
            && AreTruthful(pool, args, healthy, r.attempts)
            && r.successfulIds == Succeeded(r.attempts) && Elements(r.scopes) == ScopesOf(r.attempts)
  {
    OutcomeAgrees(pool, args, resolve, healthy, Begin(args), Max1(args.maxRuntimeProbes));
  }

  /** A runtime is named as selected exactly when the default mode is available: the one that met the target, last. */
  lemma {:induction false} SelectedIsTheLast(
    args: Arguments, resolve: Resolver, healthy: string -> bool, s: Search, budget: nat)
    requires args.continueAfterSuccess || !Reached(s, args)
    ensures var r := Outcome(args, resolve, healthy, s, budget);
            && (r.selected.Some? <==> r.status.StatusAvailable? && !args.continueAfterSuccess)
            && (r.selected.Some? ==>
                  && r.attempts != [] && r.attempts[|r.attempts| - 1].status.Available?
                  && r.selected == Some(r.attempts[|r.attempts| - 1].runtimeId))
    decreases budget
  {
    if budget == 0 {
    } else {
      var move := MoveOn(args, resolve, healthy, s);
      if move.Go? { SelectedIsTheLast(args, resolve, healthy, move.next, budget - 1); }
    }
  }
}
