/** The publish loop: restart a failing publisher with growing delays until the deadline, with a
    fresh start after every attempt that stayed up long enough. Times are seconds. */
module WhipPublisher {
  import opened Wrappers

  const STABLE_RESET := 30.0
  const RECONNECT_DELAYS: seq<real> := [1.5, 5.0, 15.0]

  type Duration = r: real | r >= 0.0

  /** What the world does during one turn of the loop. */
  datatype Turn = Turn(
    startLag: Duration,  // from the deadline check to the start of the child
    runtime: Duration,   // how long the child stays up
    checkLag: Duration,  // from its end to the check of the next deadline
    oversleep: Duration, // beyond the requested delay
    returnCode: int,
    stop: bool,          // a stop signal arrived before the check that follows the child's end
    stopLater: bool)     // one arrived after that check, up to the next deadline check or the end of the run

  /** What the world does: a stop signal before the first attempt, or without one before the end, and the turns. */
  datatype World = World(lag: Duration, early: bool, turn: nat -> Turn)

  datatype Status = Stopped | Completed | Failed

  datatype Report = Report(status: Status, exitCode: int, returnCode: int, reconnects: nat, attempts: nat)

  /** The delay before the next attempt, if there is one, and the new failure count. */
  function NextReconnectDelay(failures: nat, published: real): (Option<real>, nat) {
    var count := if published >= STABLE_RESET then 0 else failures;
    if count >= |RECONNECT_DELAYS| then (None, count) else (Some(RECONNECT_DELAYS[count]), count + 1)
  }

  function TerminalStatus(returnCode: int, stopRequested: bool): Status {
    if stopRequested then Stopped else if returnCode == 0 then Completed else Failed
  }

  function FinalReport(returnCode: int, stop: bool, reconnects: nat, attempts: nat): Report {
    Report(TerminalStatus(returnCode, stop), if stop then 0 else returnCode, returnCode, reconnects, attempts)
  }

  // ---------- The trace the loop is measured against ----------

  predicate Stable(turn: Turn) { turn.runtime >= STABLE_RESET }

  function StableCount(world: World, n: nat): nat {
    if n == 0 then 0 else StableCount(world, n - 1) + if Stable(world.turn(n - 1)) then 1 else 0
  }

  /** The attempts after the last stable one, counting that one as the first; all of them if none was stable. */
  function Streak(world: World, n: nat): nat {
    if n == 0 then 0 else if Stable(world.turn(n - 1)) then 1 else Streak(world, n - 1) + 1
  }

  /** A stop signal arrived by the check that follows attempt n. */
  predicate StopSeen(world: World, n: nat) {
    n > 0 && (StopPending(world, n - 1) || world.turn(n - 1).stop)
  }

  /** A stop signal arrived by the next deadline check after attempt n, or by the end of the run. */
  predicate StopPending(world: World, n: nat) {
    if n == 0 then world.early
    else StopPending(world, n - 1) || world.turn(n - 1).stop || world.turn(n - 1).stopLater
  }

  /** The delay slept after attempt number n. */
  function DelayAfter(world: World, n: nat): real
    requires 1 <= Streak(world, n) <= 3
  {
    RECONNECT_DELAYS[Streak(world, n) - 1]
  }

  /** The clock at the loop head before attempt n + 1, if the first n attempts were all retried. */
  function HeadTime(world: World, n: nat): real {
    if n == 0 then world.lag
    else
      var t := world.turn(n - 1);
      HeadTime(world, n - 1) + t.startLag + t.runtime + t.checkLag + t.oversleep
      + if 1 <= Streak(world, n) <= 3 then DelayAfter(world, n) else 0.0
  }

  /** Attempt n was made and then retried. */
  predicate Retried(world: World, total: real, n: nat)
    requires n > 0
  {
    && HeadTime(world, n - 1) < total
    && world.turn(n - 1).returnCode != 0 && !StopSeen(world, n)
    && 1 <= Streak(world, n) <= 3
    && HeadTime(world, n) - world.turn(n - 1).oversleep < total
  }

  /** Retries are limited by the stable attempts, and those by the time they take. */
  lemma {:induction false} RetriesAreBounded(world: World, total: real, n: nat)
    requires forall k :: 0 < k <= n ==> Retried(world, total, k)
    ensures n <= 3 * StableCount(world, n) + Streak(world, n)
    ensures Streak(world, n) <= 3
    ensures 31.5 * StableCount(world, n) as real <= HeadTime(world, n)
  {
    if n == 0 {
    } else {
      RetriesAreBounded(world, total, n - 1);
      assert Retried(world, total, n);
    }
  }

  /** How many more stable attempts fit into the time that is left. */
  function SlotsLeft(left: real): nat { if left <= 0.0 then 0 else left.Floor / 30 }

  /** Each retry uses up a stable slot or, failing that, one of the three delays. */
  lemma RetryUsesSomething(world: World, total: real, n: nat)
    requires n > 0 && Retried(world, total, n)
    ensures var before, after := SlotsLeft(total - HeadTime(world, n - 1)), SlotsLeft(total - HeadTime(world, n));
            after < before || (after == before && Streak(world, n) == Streak(world, n - 1) + 1)
  {
    var x, y := total - HeadTime(world, n - 1), total - HeadTime(world, n);
    assert y <= x;
    if y > 0.0 { assert y.Floor <= x.Floor; }
    if Stable(world.turn(n - 1)) {
      assert x > 31.5 && y <= x - 31.5;
      assert x.Floor >= 31;
      if y > 0.0 { assert y.Floor <= x.Floor - 31; }
    }
  }

  /** The delays, one after another, and the reset after thirty seconds up. */
  lemma DelaysAre(failures: nat, published: real)
    ensures var (delay, count) := NextReconnectDelay(failures, published);
            if published >= 30.0 || failures == 0 then delay == Some(1.5) && count == 1
            else if failures == 1 then delay == Some(5.0) && count == 2
            else if failures == 2 then delay == Some(15.0) && count == 3
            else delay == None && count == failures
  {
  }

  /** A stop is pending exactly if a signal arrived early or around some attempt so far. */
  lemma {:induction false} StopPendingIs(world: World, n: nat)
    ensures StopPending(world, n)
       <==> world.early || exists k: nat :: k < n && (world.turn(k).stop || world.turn(k).stopLater)
  {
    if n == 0 {
    } else {
      StopPendingIs(world, n - 1);
      assert StopPending(world, n) <==>
        StopPending(world, n - 1) || world.turn(n - 1).stop || world.turn(n - 1).stopLater;
    }
  }

  /** The streak counts the attempts since the last one that was up for thirty seconds, that one included. */
  lemma {:induction false} StreakIs(world: World, n: nat)
    ensures Streak(world, n) <= n
    ensures forall k :: n - Streak(world, n) < k < n ==> world.turn(k).runtime < 30.0
    ensures 0 < Streak(world, n) < n ==> world.turn(n - Streak(world, n)).runtime >= 30.0
  {
    if n == 0 {
    } else {
      StreakIs(world, n - 1);
    }
  }

  /** The delay chosen after attempt n decides whether it is retried, and when the next one can start. */
  lemma DelayDecides(world: World, total: real, n: nat)
    requires n > 0 && HeadTime(world, n - 1) < total && Streak(world, n - 1) <= 3
    ensures var t, (delay, failures) := world.turn(n - 1),
                                       NextReconnectDelay(Streak(world, n - 1), world.turn(n - 1).runtime);
            var checked := HeadTime(world, n - 1) + t.startLag + t.runtime + t.checkLag;
            && (Retried(world, total, n)
                <==> t.returnCode != 0 && !StopSeen(world, n) && delay.Some? && checked + delay.value < total)
            && (delay.Some? ==>
                  failures == Streak(world, n) <= 3 && HeadTime(world, n) == checked + delay.value + t.oversleep)
  {
  }

  /** An attempt is retried exactly when it failed, no stop signal had arrived by its end, it had a delay left, and
      that delay ends before the deadline. */
  lemma RetriedExactlyWhen(world: World, total: real, n: nat)
    requires n > 0 && HeadTime(world, n - 1) < total
    ensures var t, streak := world.turn(n - 1), Streak(world, n);
            var signalled := world.early || t.stop || exists k: nat ::
              k < n - 1 && (world.turn(k).stop || world.turn(k).stopLater);
            var checked := HeadTime(world, n - 1) + t.startLag + t.runtime + t.checkLag;
            Retried(world, total, n)
            <==> && t.returnCode != 0 && !signalled
                 && (|| (streak == 1 && checked + 1.5 < total)
                     || (streak == 2 && checked + 5.0 < total)
                     || (streak == 3 && checked + 15.0 < total))
  {
    StopPendingIs(world, n - 1);
  }

  lemma AttemptsAreBounded(world: World, total: real, n: nat)
    requires n > 0 && HeadTime(world, n - 1) < total
    requires forall k :: 0 < k < n ==> Retried(world, total, k)
    ensures n <= 3 * StableCount(world, n) + 4
    ensures 31.5 * (StableCount(world, n) - 1) as real < total
  {
    RetriesAreBounded(world, total, n - 1);
  }

  /** How the loop ends: after a delay that outlasts the deadline, or with a last attempt that is not retried. */
  ghost predicate EndsRightly(world: World, total: real, r: Report) {
    var n := r.attempts;
    && r.reconnects <= n <= r.reconnects + 1
    && (forall k :: 0 < k <= r.reconnects ==> Retried(world, total, k))
    && r.status == TerminalStatus(r.returnCode, StopPending(world, n))
    && if r.reconnects == n then HeadTime(world, n) >= total && r.returnCode == 0
       else
         && HeadTime(world, n - 1) < total && !Retried(world, total, n)
         && r.returnCode == world.turn(n - 1).returnCode
  }

  /** A run is stopped if and only if a signal arrived, and completed or failed by its last return code otherwise. */
  lemma StatusIs(world: World, total: real, r: Report)
    requires EndsRightly(world, total, r)
    ensures var signalled := world.early || exists k: nat ::
              k < r.attempts && (world.turn(k).stop || world.turn(k).stopLater);
            && (r.status == Stopped <==> signalled)
            && (r.status == Completed <==> !signalled && r.returnCode == 0)
            && (r.status == Failed <==> !signalled && r.returnCode != 0)
  {
    StopPendingIs(world, r.attempts);
  }

  /** At most 3s + 4 attempts for s stable ones, all but the last of which take at least 31.5 seconds. */
  lemma EndingIsBounded(world: World, total: real, r: Report)
    requires EndsRightly(world, total, r)
    ensures r.attempts <= 3 * StableCount(world, r.attempts) + 4
    ensures r.attempts > 0 ==> 31.5 * (StableCount(world, r.attempts) - 1) as real < total
  {
    if r.attempts > 0 {
      if r.reconnects == r.attempts { assert Retried(world, total, r.attempts); }
      AttemptsAreBounded(world, total, r.attempts);
    }
  }

  /** The loop's variables at its head after n attempts, each of them retried. */
  ghost predicate AtHead(world: World, total: real, n: nat, now: real, failures: nat, stop: bool) {
    && now == HeadTime(world, n)
    && failures == Streak(world, n) <= 3
    && stop == StopPending(world, n)
    && forall k :: 0 < k <= n ==> Retried(world, total, k)
  }

  /** Waiting out the delay after attempt n + 1 leads back to the head, having used something up. */
  lemma RetryReturnsToHead(world: World, total: real, n: nat, now: real, failures: nat, stop: bool)
    requires AtHead(world, total, n, now, failures, stop) && now < total
    requires world.turn(n).returnCode != 0 && !stop && !world.turn(n).stop
    requires var t, delay := world.turn(n), NextReconnectDelay(failures, world.turn(n).runtime).0;
             delay.Some? && now + t.startLag + t.runtime + t.checkLag + delay.value < total
    ensures var t, (delay, count) := world.turn(n), NextReconnectDelay(failures, world.turn(n).runtime);
            var after := now + t.startLag + t.runtime + t.checkLag + delay.value + t.oversleep;
            && AtHead(world, total, n + 1, after, count, t.stopLater)
            && (SlotsLeft(total - after) < SlotsLeft(total - now)
                || (SlotsLeft(total - after) == SlotsLeft(total - now) && count == failures + 1))
  {
    DelayDecides(world, total, n + 1);
    RetryUsesSomething(world, total, n + 1);
  }

  /** Breaking out after attempt n + 1 ends the run rightly. */
  lemma BreakIsRight(world: World, total: real, n: nat, now: real, failures: nat, stop: bool)
    requires AtHead(world, total, n, now, failures, stop) && now < total
    requires var t, delay := world.turn(n), NextReconnectDelay(failures, world.turn(n).runtime).0;
             t.returnCode != 0 && !stop && !t.stop && delay.Some? ==>
               now + t.startLag + t.runtime + t.checkLag + delay.value >= total
    ensures EndsRightly(world, total, FinalReport(
                          world.turn(n).returnCode, stop || world.turn(n).stop || world.turn(n).stopLater, n, n + 1))
  {
    DelayDecides(world, total, n + 1);
  }

  lemma DeadlineIsRight(world: World, total: real, n: nat, now: real, failures: nat, stop: bool)
    requires AtHead(world, total, n, now, failures, stop) && now >= total
    ensures EndsRightly(world, total, FinalReport(0, stop, n, n))
  {
  }

  method Publish(total: real, world: World) returns (r: Report)
    ensures EndsRightly(world, total, r)
    ensures r.exitCode == if r.status.Stopped? then 0 else r.returnCode
    ensures r.attempts <= 3 * StableCount(world, r.attempts) + 4
    ensures r.attempts > 0 ==> 31.5 * (StableCount(world, r.attempts) - 1) as real < total
  {
    var now: real := world.lag;
    var returnCode := 1;
    var reconnects, failures, attempts := 0, 0, 0;
    var stopRequested := world.early;
    while true
      invariant 0 <= attempts == reconnects
      invariant AtHead(world, total, attempts, now, failures, stopRequested)
      decreases SlotsLeft(total - now), 3 - failures
    {
      if total - now <= 0.0 {
        returnCode := 0;
        DeadlineIsRight(world, total, attempts, now, failures, stopRequested);
        break;
      }
      attempts := attempts + 1;
      ghost var failuresBefore, stopBefore := failures, stopRequested;
      var turn := world.turn(attempts - 1);
      returnCode := turn.returnCode;
      var stopped := stopRequested || turn.stop;
      stopRequested := stopped || turn.stopLater;
      if returnCode == 0 || stopped {
        BreakIsRight(world, total, attempts - 1, now, failuresBefore, stopBefore);
        break;
      }
      var next := NextReconnectDelay(failures, turn.runtime);
      failures := next.1;
      var checked := now + turn.startLag + turn.runtime + turn.checkLag;
      if next.0.None? || checked + next.0.value >= total {
        BreakIsRight(world, total, attempts - 1, now, failuresBefore, stopBefore);
        break;
      }
      RetryReturnsToHead(world, total, attempts - 1, now, failuresBefore, stopBefore);
      reconnects := reconnects + 1;
      now := checked + next.0.value + turn.oversleep;
    }
    r := FinalReport(returnCode, stopRequested, reconnects, attempts);
    EndingIsBounded(world, total, r);
  }
}
