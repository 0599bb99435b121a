/** Double-checked lazy loading of the speech model under one lock, and synthesis under a second,
    by any number of request threads and with loads that may fail.

    Every read or write of a global and every lock operation is its own step. */
module XttsService {
  import opened Wrappers

  type Model = nat

  datatype Pc =
    | CheckOuter                 // `if _model_loaded` before the lock
    | ReturnOuter                // about to read `_tts` without the lock
    | WaitModelLock
    | CheckInner                 // `if _model_loaded` under the lock
    | ReturnInner                // about to read `_tts` under the lock
    | Construct                  // patching torch.load and building the model
    | Publish(built: Model)      // model built, `_tts` not yet assigned
    | SetFlag                    // `_tts` assigned, `_model_loaded` not yet
    | ReturnNew                  // about to read `_tts` after loading
    | LeaveWith(model: Option<Model>)    // leaving the `with` block normally
    | LeaveFailed                // leaving the `with` block with the load error
    | HasModel(model: Option<Model>)     // `_load_model` returned
    | Synthesizing(model: Option<Model>) // inside `with _synthesis_lock`
    | LeaveSynthesis(model: Option<Model>, ok: bool)
    | Served(model: Option<Model>)
    | Errored

  /** Threads are numbered by arrival; `made` lists the models ever constructed. */
  datatype State = State(
    tts: Option<Model>, loaded: bool, modelLock: Option<nat>, synthesisLock: Option<nat>,
    pcs: seq<Pc>, made: seq<Model>)

  datatype Step =
    | Arrive
    | Refuse(t: nat)               // empty text or invalid base64
    | Proceed(t: nat)              // the one way on from a deterministic point
    | LoadSucceeds(t: nat, model: Model)
    | LoadFails(t: nat)
    | GiveUp(t: nat)               // an error between loading and synthesis
    | SynthesisEnds(t: nat, ok: bool)

  predicate HoldsModelLock(pc: Pc) {
    pc.CheckInner? || pc.ReturnInner? || pc.Construct? || pc.Publish? || pc.SetFlag? || pc.ReturnNew?
    || pc.LeaveWith? || pc.LeaveFailed?
  }

  predicate HoldsSynthesisLock(pc: Pc) { pc.Synthesizing? || pc.LeaveSynthesis? }

  predicate Finished(pc: Pc) { pc.Served? || pc.Errored? }

  predicate Enabled(s: State, step: Step) {
    match step
    case Arrive => true
    case Refuse(t) => t < |s.pcs| && s.pcs[t].CheckOuter?
    case LoadSucceeds(t, _) => t < |s.pcs| && s.pcs[t].Construct?
    case LoadFails(t) => t < |s.pcs| && s.pcs[t].Construct?
    case GiveUp(t) => t < |s.pcs| && s.pcs[t].HasModel?
    case SynthesisEnds(t, _) => t < |s.pcs| && s.pcs[t].Synthesizing?
    case Proceed(t) =>
      && t < |s.pcs| && !Finished(s.pcs[t]) && !s.pcs[t].Construct? && !s.pcs[t].Synthesizing?
      && (s.pcs[t].WaitModelLock? ==> s.modelLock == None)
      && (s.pcs[t].HasModel? ==> s.synthesisLock == None)
  }

  function Goto(s: State, t: nat, pc: Pc): State
    requires t < |s.pcs|
  {
    s.(pcs := s.pcs[t := pc])
  }

  function Proceeded(s: State, t: nat): State
    requires Enabled(s, Proceed(t))
  {
    match s.pcs[t]
    case CheckOuter => Goto(s, t, if s.loaded then ReturnOuter else WaitModelLock)
    case ReturnOuter => Goto(s, t, HasModel(s.tts))
    case WaitModelLock => Goto(s.(modelLock := Some(t)), t, CheckInner)
    case CheckInner => Goto(s, t, if s.loaded then ReturnInner else Construct)
    case ReturnInner => Goto(s, t, LeaveWith(s.tts))
    case Publish(built) => Goto(s.(tts := Some(built)), t, SetFlag)
    case SetFlag => Goto(s.(loaded := true), t, ReturnNew)
    case ReturnNew => Goto(s, t, LeaveWith(s.tts))
    case LeaveWith(model) => Goto(s.(modelLock := None), t, HasModel(model))
    case LeaveFailed => Goto(s.(modelLock := None), t, Errored)
    case HasModel(model) => Goto(s.(synthesisLock := Some(t)), t, Synthesizing(model))
    case LeaveSynthesis(model, ok) => Goto(s.(synthesisLock := None), t, if ok then Served(model) else Errored)
  }

  function Advance(s: State, step: Step): State
    requires Enabled(s, step)
  {
    match step
    case Arrive => s.(pcs := s.pcs + [CheckOuter])
    case Refuse(t) => Goto(s, t, Errored)
    case Proceed(t) => Proceeded(s, t)
    case LoadSucceeds(t, model) => Goto(s.(made := s.made + [model]), t, Publish(model))
    case LoadFails(t) => Goto(s, t, LeaveFailed)
    case GiveUp(t) => Goto(s, t, Errored)
    case SynthesisEnds(t, ok) => Goto(s, t, LeaveSynthesis(s.pcs[t].model, ok))
  }

  function Start(): State { State(None, false, None, None, [], []) }

  /** The state after any list of steps; a step that is not enabled is skipped. */
  function Run(steps: seq<Step>): State {
    if steps == [] then Start()
    else
      var before, step := Run(steps[..|steps| - 1]), steps[|steps| - 1];
      if Enabled(before, step) then Advance(before, step) else before
  }

  // ---------- The invariant ----------

  /** The one model is made, published and flagged. */
  predicate Ready(s: State) { s.loaded && s.tts.Some? && s.made == [s.tts.value] }

  predicate Blank(s: State) { !s.loaded && s.tts == None && s.made == [] }

  ghost predicate PcOk(s: State, pc: Pc) {
    match pc
    case ReturnOuter => Ready(s)
    case ReturnInner => Ready(s)
    case ReturnNew => Ready(s)
    case CheckInner => Ready(s) || Blank(s)
    case Construct => Blank(s)
    case LeaveFailed => Blank(s)
    case Publish(built) => !s.loaded && s.tts == None && s.made == [built]
    case SetFlag => !s.loaded && s.tts.Some? && s.made == [s.tts.value]
    case LeaveWith(model) => Ready(s) && s.tts == model
    case HasModel(model) => Ready(s) && s.tts == model
    case Synthesizing(model) => Ready(s) && s.tts == model
    case LeaveSynthesis(model, _) => Ready(s) && s.tts == model
    case Served(model) => Ready(s) && s.tts == model
    case _ => true
  }

  ghost predicate LocksOk(s: State) {
    && (s.modelLock.Some? ==> s.modelLock.value < |s.pcs|)
    && (s.synthesisLock.Some? ==> s.synthesisLock.value < |s.pcs|)
    && (forall t :: 0 <= t < |s.pcs| ==> (HoldsModelLock(s.pcs[t]) <==> s.modelLock == Some(t)))
    && (forall t :: 0 <= t < |s.pcs| ==> (HoldsSynthesisLock(s.pcs[t]) <==> s.synthesisLock == Some(t)))
  }

  ghost predicate Inv(s: State) {
    && LocksOk(s)
    && (forall t :: 0 <= t < |s.pcs| ==> PcOk(s, s.pcs[t]))
    && (s.modelLock == None ==> Ready(s) || Blank(s))
    && (s.loaded ==> Ready(s))
  }

  /** A lock only passes between free and held by the stepping thread. */
  predicate LockMoves(before: Option<nat>, after: Option<nat>, t: nat) {
    after == before || (before == None && after == Some(t)) || (before == Some(t) && after == None)
  }

  lemma StepperLocks(s: State, step: Step)
    requires Enabled(s, step) && !step.Arrive?
    requires HoldsModelLock(s.pcs[step.t]) <==> s.modelLock == Some(step.t)
    requires HoldsSynthesisLock(s.pcs[step.t]) <==> s.synthesisLock == Some(step.t)
    ensures var s' := Advance(s, step);
            && s'.pcs == s.pcs[step.t := s'.pcs[step.t]]
            && LockMoves(s.modelLock, s'.modelLock, step.t) && LockMoves(s.synthesisLock, s'.synthesisLock, step.t)
            && (HoldsModelLock(s'.pcs[step.t]) <==> s'.modelLock == Some(step.t))
            && (HoldsSynthesisLock(s'.pcs[step.t]) <==> s'.synthesisLock == Some(step.t))
  {
  }

  lemma LocksKept(s: State, step: Step)
    requires LocksOk(s) && Enabled(s, step)
    ensures LocksOk(Advance(s, step))
  {
    if !step.Arrive? {
      StepperLocks(s, step);
    }
  }

  /** A thread outside the model lock relies only on the model staying ready. */
  lemma BystanderKept(s: State, s': State, pc: Pc)
    requires PcOk(s, pc)
    requires !HoldsModelLock(pc) || (s'.tts == s.tts && s'.loaded == s.loaded && s'.made == s.made)
    requires Ready(s) ==> Ready(s') && s'.tts == s.tts
    ensures PcOk(s', pc)
  {
  }

  /** What a step does to the stepping thread and to the published model. */
  lemma StepperKept(s: State, step: Step)
    requires Enabled(s, step) && !step.Arrive? && PcOk(s, s.pcs[step.t])
    requires s.modelLock == None ==> Ready(s) || Blank(s)
    requires s.loaded ==> Ready(s)
    requires HoldsModelLock(s.pcs[step.t]) <==> s.modelLock == Some(step.t)
    ensures var s' := Advance(s, step);
            && PcOk(s', s'.pcs[step.t])
            && (Ready(s) ==> Ready(s') && s'.tts == s.tts)
            && (s'.modelLock == None ==> Ready(s') || Blank(s'))
            && (s'.loaded ==> Ready(s'))
            && (HoldsModelLock(s.pcs[step.t]) || (s'.tts == s.tts && s'.loaded == s.loaded && s'.made == s.made))
  {
  }

  lemma AdvanceKeeps(s: State, step: Step)
    requires Inv(s) && Enabled(s, step)
    ensures Inv(Advance(s, step))
    ensures Ready(s) ==> Ready(Advance(s, step)) && Advance(s, step).tts == s.tts
  {
    var s' := Advance(s, step);
    LocksKept(s, step);
    if !step.Arrive? {
      assert PcOk(s, s.pcs[step.t]);
      StepperKept(s, step);
      forall t | 0 <= t < |s'.pcs| ensures PcOk(s', s'.pcs[t]) {
        assert PcOk(s, s.pcs[t]);
        if t != step.t { BystanderKept(s, s', s.pcs[t]); }
      }
    } else {
      forall t | 0 <= t < |s'.pcs| ensures PcOk(s', s'.pcs[t]) {
        if t < |s.pcs| {
          assert PcOk(s, s.pcs[t]);
          BystanderKept(s, s', s.pcs[t]);
        }
      }
    }
  }

  lemma {:induction false} InvHolds(steps: seq<Step>)
    ensures Inv(Run(steps))
  {
    if steps == [] {
    } else {
      InvHolds(steps[..|steps| - 1]);
      var before, step := Run(steps[..|steps| - 1]), steps[|steps| - 1];
      if Enabled(before, step) { AdvanceKeeps(before, step); }
    }
  }

  // ---------- Safety ----------

  /** At most one construction ever succeeds; a set flag means a published model; and whoever holds,
      uses or has been served by a model has that one. */
  lemma OneModel(steps: seq<Step>)
    ensures var s := Run(steps);
            && |s.made| <= 1
            && (s.loaded ==> s.tts.Some? && s.made == [s.tts.value])
            && (forall t :: 0 <= t < |s.pcs| && (s.pcs[t].HasModel? || s.pcs[t].Synthesizing? || s.pcs[t].Served?) ==>
                  s.pcs[t].model.Some? && s.made == [s.pcs[t].model.value])
  {
    InvHolds(steps);
    var s := Run(steps);
    forall t | 0 <= t < |s.pcs| ensures PcOk(s, s.pcs[t]) { }
    if s.modelLock.Some? { assert PcOk(s, s.pcs[s.modelLock.value]); }
  }

  lemma {:induction false} ReadyStays(steps: seq<Step>, more: seq<Step>)
    requires Ready(Run(steps))
    ensures Ready(Run(steps + more)) && Run(steps + more).tts == Run(steps).tts
  {
    if more == [] {
      assert steps + more == steps;
    } else {
      var all := steps + more;
      assert all[..|all| - 1] == steps + more[..|more| - 1];
      ReadyStays(steps, more[..|more| - 1]);
      InvHolds(all[..|all| - 1]);
      var before, step := Run(all[..|all| - 1]), all[|all| - 1];
      if Enabled(before, step) { AdvanceKeeps(before, step); }
    }
  }

  /** Every normal return of the loader over a whole run yields the same instance. */
  lemma EveryReturnIsTheSame(steps: seq<Step>, more: seq<Step>, t: nat, u: nat)
    requires t < |Run(steps).pcs| && Run(steps).pcs[t].HasModel?
    requires u < |Run(steps + more).pcs| && Run(steps + more).pcs[u].HasModel?
    ensures Run(steps).pcs[t].model.Some? && Run(steps).pcs[t].model == Run(steps + more).pcs[u].model
  {
    OneModel(steps);
    OneModel(steps + more);
    InvHolds(steps);
    assert PcOk(Run(steps), Run(steps).pcs[t]);
    ReadyStays(steps, more);
  }

  /** Both locks exclude, and no thread ever holds one while it holds or waits for the other. */
  lemma LocksExclude(steps: seq<Step>, t: nat, u: nat)
    requires t < |Run(steps).pcs| && u < |Run(steps).pcs|
    ensures var s := Run(steps);
            && (HoldsModelLock(s.pcs[t]) && HoldsModelLock(s.pcs[u]) ==> t == u)
            && (HoldsSynthesisLock(s.pcs[t]) && HoldsSynthesisLock(s.pcs[u]) ==> t == u)
            && !(s.modelLock == Some(t) && (s.synthesisLock == Some(t) || s.pcs[t].HasModel?))
            && !(s.synthesisLock == Some(t) && (s.modelLock == Some(t) || s.pcs[t].WaitModelLock?))
  {
    InvHolds(steps);
  }

  /** After a failed load the lock is free, nothing is published, and any waiting thread can retry the construction. */
  lemma FailedLoadIsRetryable(steps: seq<Step>, t: nat, u: nat)
    requires t < |Run(steps).pcs| && Run(steps).pcs[t].Construct?
    requires u < |Run(steps).pcs| && Run(steps).pcs[u].WaitModelLock?
    ensures Enabled(Run(steps), LoadFails(t))
    ensures var failed := Advance(Run(steps), LoadFails(t));
            && Enabled(failed, Proceed(t))
            && var freed := Advance(failed, Proceed(t));
               && freed.modelLock == None && freed.tts == None && !freed.loaded && freed.pcs[t] == Errored
               && Enabled(freed, Proceed(u))
               && var entered := Advance(freed, Proceed(u));
                  Enabled(entered, Proceed(u)) && Advance(entered, Proceed(u)).pcs[u] == Construct
  {
    InvHolds(steps);
    assert PcOk(Run(steps), Run(steps).pcs[t]);
  }

  // ---------- Progress ----------

  /** The step the thread itself can take next. */
  function OwnStep(s: State, t: nat): Step
    requires t < |s.pcs|
  {
    match s.pcs[t]
    case Construct => LoadFails(t)
    case Synthesizing(_) => SynthesisEnds(t, true)
    case _ => Proceed(t)
  }

  /** No deadlock: while any request is unfinished, some unfinished request can take a step of its own. */
  lemma NeverDeadlocked(steps: seq<Step>, t: nat) returns (u: nat)
    requires t < |Run(steps).pcs| && !Finished(Run(steps).pcs[t])
    ensures u < |Run(steps).pcs| && !Finished(Run(steps).pcs[u]) && Enabled(Run(steps), OwnStep(Run(steps), u))
  {
    InvHolds(steps);
    var s := Run(steps);
    if s.modelLock.Some? {
      u := s.modelLock.value;
    } else if s.synthesisLock.Some? {
      u := s.synthesisLock.value;
    } else {
      u := t;
    }
    assert PcOk(s, s.pcs[u]);
  }

  /** How many more steps a thread can take. */
  function Rank(pc: Pc): nat {
    match pc
    case CheckOuter => 12
    case WaitModelLock => 11
    case CheckInner => 10
    case Construct => 9
    case Publish(_) => 8
    case SetFlag => 7
    case ReturnNew => 6
    case ReturnInner => 6
    case LeaveWith(_) => 5
    case ReturnOuter => 5
    case HasModel(_) => 4
    case Synthesizing(_) => 3
    case LeaveSynthesis(_, _) => 2
    case LeaveFailed => 1
    case Served(_) => 0
    case Errored => 0
  }

  function TotalRank(pcs: seq<Pc>): nat {
    if pcs == [] then 0 else TotalRank(pcs[..|pcs| - 1]) + Rank(pcs[|pcs| - 1])
  }

  lemma {:induction false} RankOfUpdate(pcs: seq<Pc>, t: nat, pc: Pc)
    requires t < |pcs|
    ensures TotalRank(pcs[t := pc]) + Rank(pcs[t]) == TotalRank(pcs) + Rank(pc)
  {
    var n := |pcs| - 1;
    if t < n {
      assert pcs[t := pc][..n] == pcs[..n][t := pc];
      RankOfUpdate(pcs[..n], t, pc);
    } else {
      assert pcs[t := pc][..n] == pcs[..n];
    }
  }

  lemma StepperRank(s: State, step: Step)
    requires Enabled(s, step) && !step.Arrive?
    ensures Rank(Advance(s, step).pcs[step.t]) < Rank(s.pcs[step.t])
    ensures Advance(s, step).pcs == s.pcs[step.t := Advance(s, step).pcs[step.t]]
  {
  }

  lemma StepLowersRank(s: State, step: Step)
    requires Enabled(s, step) && !step.Arrive?
    ensures TotalRank(Advance(s, step).pcs) < TotalRank(s.pcs)
  {
    StepperRank(s, step);
    RankOfUpdate(s.pcs, step.t, Advance(s, step).pcs[step.t]);
  }

  /** `more` can be taken step by step from `s`, and no request arrives meanwhile. */
  ghost predicate Takeable(s: State, more: seq<Step>)
    decreases |more|
  {
    more == [] || (more[0] != Arrive && Enabled(s, more[0]) && Takeable(Advance(s, more[0]), more[1..]))
  }

  lemma {:induction false} RankBound(pcs: seq<Pc>)
    ensures TotalRank(pcs) <= 12 * |pcs|
  {
    if pcs == [] {
    } else {
      RankBound(pcs[..|pcs| - 1]);
    }
  }

  /** Without new arrivals a run cannot go on for more than 12 steps per request. */
  lemma {:induction false} RunsAreBounded(s: State, more: seq<Step>)
    requires Takeable(s, more)
    ensures |more| <= TotalRank(s.pcs) <= 12 * |s.pcs|
    decreases |more|
  {
    RankBound(s.pcs);
    if more == [] {
    } else {
      StepLowersRank(s, more[0]);
      RunsAreBounded(Advance(s, more[0]), more[1..]);
    }
  }

  // ---------- What a request gets ----------

  /** A synthesis that ends well is served with its model and a failed one is answered with an error; either way the
      synthesis lock is free again. */
  lemma SynthesisIsServedExactlyWhenGood(s: State, t: nat, ok: bool)
    requires t < |s.pcs| && s.pcs[t].Synthesizing?
    ensures var ended := Advance(s, SynthesisEnds(t, ok));
            && Enabled(ended, Proceed(t))
            && var left := Advance(ended, Proceed(t));
               && left.synthesisLock == None
               && left.pcs[t] == if ok then Served(s.pcs[t].model) else Errored
  {
  }

  /** A request that is refused, or gives up before synthesis, is answered with an error and touches nothing. */
  lemma RefusalsTouchNothing(s: State, t: nat)
    requires t < |s.pcs|
    ensures Enabled(s, Refuse(t)) ==> Advance(s, Refuse(t)) == s.(pcs := s.pcs[t := Errored])
    ensures Enabled(s, GiveUp(t)) ==> Advance(s, GiveUp(t)) == s.(pcs := s.pcs[t := Errored])
  {
  }

  /** Once the flag is set, the loader returns the model in two steps and never takes the lock. */
  lemma LoadedPathTakesNoLock(steps: seq<Step>, t: nat)
    requires t < |Run(steps).pcs| && Run(steps).pcs[t] == CheckOuter && Run(steps).loaded
    ensures var s := Run(steps);
            && Enabled(s, Proceed(t)) && Enabled(Advance(s, Proceed(t)), Proceed(t))
            && var after := Advance(Advance(s, Proceed(t)), Proceed(t));
               && after == s.(pcs := after.pcs) && after.pcs[t] == HasModel(s.tts) && s.tts.Some?
  {
    InvHolds(steps);
  }

  /** A model is constructed only under the lock and while none is loaded, and becomes the published one. */
  lemma ConstructionPublishes(steps: seq<Step>, t: nat, model: Model)
    requires t < |Run(steps).pcs| && Run(steps).pcs[t] == Construct
    ensures var s := Run(steps);
            && s.modelLock == Some(t) && !s.loaded && s.made == []
            && Enabled(s, LoadSucceeds(t, model))
            && var built := Advance(s, LoadSucceeds(t, model));
               && Enabled(built, Proceed(t)) && Enabled(Advance(built, Proceed(t)), Proceed(t))
               && var flagged := Advance(Advance(built, Proceed(t)), Proceed(t));
                  flagged.tts == Some(model) && flagged.loaded && flagged.made == [model]
  {
    InvHolds(steps);
    assert PcOk(Run(steps), Run(steps).pcs[t]);
  }
}
