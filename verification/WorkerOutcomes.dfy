/** Where a worker can end up: how many failures a window can show, runs that
    reach the bounds proved in WorkerTheorems, and the exact condition under
    which the lifecycle task dies. */
module WorkerOutcomes {
  import opened Options
  import opened SlidingWindow
  import opened WorkerStates
  import opened CB = CircuitBreaker
  import opened Backoff
  import opened Lifecycle
  import opened WorkerTheorems

  lemma Extend(w: Worker, before: real, a: Action, now: real)
    requires Reachable(w, before) && before <= now && Enabled(w, a, now)
    ensures Reachable(Step(w, a, now), now)
  {
    var script :| RunScript(script) == Some((w, before));
    var longer := script + [Timed(a, now)];
    assert longer[..|longer| - 1] == script;
    assert RunScript(longer) == Some((Step(w, a, now), now));
  }

  // ---------------------------------------------------------------------
  // The failure count shown to the operator
  // ---------------------------------------------------------------------

  /** Whatever the run, the failures counted in the window at any later time
      are bounded by the entries into RUNNING since the oldest of them; with none
      since then the count never passes twelve, so a threshold of thirty cannot
      be met. */
  lemma CountIsBoundedByRuns(w: Worker, now: real, later: real)
    requires Reachable(w, now) && now <= later
    ensures
      var n := |EvictOld(POLICY, w.breaker, later).failures|;
      && n <= |w.exits|
      && (n > 0 ==>
            var entries := |w.runs| - w.exits[|w.exits| - n].runsBefore;
            && entries >= 0
            && 48.0 * (n - 1) as real <= 300.0 + MAX_DEBT * (1 + entries) as real
            && (entries == 0 ==> n <= 12))
  {
    ReachableKeepsInv(w, now);
    LiveIsBounded(w.breaker.failures, w.exits, w.runs, now, later);
  }

  lemma LiveIsBounded(failures: seq<real>, exits: seq<Exit>, runs: seq<real>, now: real, later: real)
    requires BreakerOk(failures, exits) && PaceOk(exits) && RunsOk(runs, exits, now) && now <= later
    ensures
      var n := |Evict(DropBefore, failures, later - 300.0)|;
      && n <= |exits|
      && (n > 0 ==>
            var entries := |runs| - exits[|exits| - n].runsBefore;
            && entries >= 0
            && 48.0 * (n - 1) as real <= 300.0 + MAX_DEBT * (1 + entries) as real
            && (entries == 0 ==> n <= 12))
  {
    var cut := later - 300.0;
    EvictKeepsBreaker(failures, exits, cut);
    EvictShape(DropBefore, failures, cut);
    var live := Evict(DropBefore, failures, cut);
    if live != [] {
      var i, j := |exits| - |live|, |exits| - 1;
      assert exits[i].at == live[0] && exits[j].at <= now;
      PaceInWindow(exits, i, j);
      assert exits[j].runsBefore <= |runs|;
      MoreRunsMoreRoom(exits[j].runsBefore - exits[i].runsBefore, |runs| - exits[i].runsBefore);
    }
  }

  lemma MoreRunsMoreRoom(m: int, n: int)
    requires m <= n
    ensures MAX_DEBT * (1 + m) as real <= MAX_DEBT * (1 + n) as real
  {
  }

  // ---------------------------------------------------------------------
  // The bound of four runs is met
  // ---------------------------------------------------------------------

  /** The time the first `k` least delays take. */
  function Spent(k: nat): real { 48.0 * k as real - Debt(k) }

  /** A worker that fails `n` times, at once after each spawn, showing one
      frame before every sixth failure, with the least jitter throughout. */
  ghost predicate Flapping(w: Worker, now: real, n: nat) {
    && n >= 1
    && Reachable(w, now)
    && w.state == RECONNECTING && !w.stopRequested
    && w.attempt == (n - 1) % 6 + 1
    && w.point == Sleeping(now + MinDelay((n - 1) % 6))
    && now == Spent(6) * ((n - 1) / 6) as real + Spent((n - 1) % 6)
    && |w.runs| == (n - 1) / 6
    && |w.breaker.failures| == n && w.breaker.healthySince.None?
    && forall i :: 0 <= i < n ==> w.breaker.failures[i] >= 0.0
  }

  lemma SpentValues()
    ensures Spent(0) == 0.0 && Spent(5) == 24.8 && Spent(6) == 50.4
    ensures forall k :: 0 <= k < 6 ==> 0.0 <= Spent(k) <= 24.8
  {
    assert Pow2(1) == 2 && Pow2(2) == 4 && Pow2(3) == 8 && Pow2(4) == 16 && Pow2(5) == 32;
    assert Debt(1) == 47.2 && Debt(2) == 93.6 && Debt(3) == 138.4;
    assert Debt(4) == 180.0 && Debt(5) == 215.2 && Debt(6) == 237.6;
  }

  lemma LeastDelay(attempt: nat)
    requires attempt < FLOAT_EXPONENT_LIMIT
    ensures ComputeBackoff(attempt, 0.0) == Delay(MinDelay(attempt))
  {
    var raw := Nominal(attempt);
    assert raw >= 0.0;
    assert Product(raw * JITTER, 2.0 * 0.0 - 1.0) == (raw * JITTER) * -1.0;
  }

  /** `r` is `w` after one more failure at `now`, asleep for the least delay. */
  ghost predicate FailedOnce(w: Worker, now: real, r: Worker) {
    && Reachable(r, now) && r.state == RECONNECTING && !r.stopRequested
    && r.attempt == w.attempt + 1 && r.point == Sleeping(now + MinDelay(w.attempt))
    && r.runs == w.runs && r.breaker == CB.State(w.breaker.failures + [now], None)
  }

  /** The exit of a process whose window stays below thirty failures. */
  lemma FailureStep(w: Worker, now: real)
    requires w.point.Spawned? && !w.stopRequested && w.attempt < 7 && PointOk(w)
    requires 0.0 <= now <= 300.0 && forall i :: 0 <= i < |w.breaker.failures| ==> w.breaker.failures[i] >= 0.0
    requires |w.breaker.failures| < 29
    ensures
      var b := CB.State(w.breaker.failures + [now], None);
      var w0 := w.(breaker := b, exits := w.exits + [Exit(now, w.attempt, |w.runs|)]);
      AfterSpawn(w, now, 0.0) ==
        if w.state == RECONNECTING then w0.(attempt := w.attempt + 1, point := Sleeping(now + MinDelay(w.attempt)))
        else Emit(w0, RECONNECTING, ApplyVerdict(CLOSED), now)
  {
    LeastDelay(w.attempt);
    assert AfterFailure(POLICY, w.breaker, now).failures == w.breaker.failures + [now];
  }

  lemma FailOnce(w: Worker, now: real) returns (r: Worker)
    requires Reachable(w, now) && w.point.Spawned? && !w.stopRequested && w.attempt < 7
    requires 0.0 <= now <= 300.0 && forall i :: 0 <= i < |w.breaker.failures| ==> w.breaker.failures[i] >= 0.0
    requires |w.breaker.failures| < 29
    ensures FailedOnce(w, now, r)
  {
    hide Reachable;
    assert PointOk(w) by { ReachableKeepsInv(w, now); }
    Extend(w, now, SpawnEnds(0.0), now);
    r := Step(w, SpawnEnds(0.0), now);
    FailureStep(w, now);
    if w.state != RECONNECTING {
      LeastDelay(w.attempt);
      Extend(r, now, Delivered(0.0), now);
      r := Step(r, Delivered(0.0), now);
    }
  }

  lemma FirstFailure() returns (r: Worker)
    ensures Flapping(r, 0.0, 1)
  {
    assert RunScript([]) == Some((INITIAL, 0.0));
    assert Reachable(INITIAL, 0.0);
    Extend(INITIAL, 0.0, Launch, 0.0);
    var w1 := Step(INITIAL, Launch, 0.0);
    Extend(w1, 0.0, Delivered(0.0), 0.0);
    var w2 := Step(w1, Delivered(0.0), 0.0);
    r := FailOnce(w2, 0.0);
    SpentValues();
  }

  /** The wake-up after failure `n`, with a frame when `n` is a multiple of 6. */
  lemma WakeAndRun(w: Worker, before: real, n: nat) returns (r: Worker, now: real)
    requires Flapping(w, before, n) && n < 30
    ensures Reachable(r, now) && r.point.Spawned? && !r.stopRequested
    ensures now == Spent(6) * (n / 6) as real + Spent(n % 6)
    ensures 0.0 <= now <= 300.0
    ensures r.attempt == n % 6 && |r.runs| == n / 6
    ensures r.breaker.failures == w.breaker.failures
    ensures n % 6 != 0 ==> r.state == RECONNECTING
  {
    now := w.point.until;
    NextWakeUp(n);
    assert now >= before by {
      DebtBounded((n - 1) % 6);
    }
    hide Spent, MinDelay;
    Extend(w, before, WakeSleep, now);
    r := Step(w, WakeSleep, now);
    if n % 6 == 0 {
      Extend(r, now, Frame, now);
      r := Step(r, Frame, now);
    }
  }

  /** When the worker wakes after failure `n`. */
  lemma NextWakeUp(n: nat)
    requires 1 <= n < 30
    ensures
      var now := Spent(6) * ((n - 1) / 6) as real + Spent((n - 1) % 6) + MinDelay((n - 1) % 6);
      now == Spent(6) * (n / 6) as real + Spent(n % 6) && 0.0 <= now <= 300.0
    ensures if n % 6 == 0 then (n - 1) / 6 + 1 == n / 6 && (n - 1) % 6 == 5
            else (n - 1) / 6 == n / 6 && (n - 1) % 6 + 1 == n % 6
  {
    SpentValues();
    DebtBounded((n - 1) % 6);
  }

  lemma FlapAgain(w: Worker, before: real, n: nat) returns (r: Worker, now: real)
    requires Flapping(w, before, n) && n < 29
    ensures Flapping(r, now, n + 1)
  {
    var s;
    s, now := WakeAndRun(w, before, n);
    r := FailOnce(s, now);
    assert r.breaker.failures == w.breaker.failures + [now];
  }

  lemma {:induction false} FlappingRun(n: nat) returns (r: Worker, now: real)
    requires 1 <= n <= 29
    ensures Flapping(r, now, n)
  {
    if n == 1 {
      now := 0.0;
      r := FirstFailure();
    } else {
      r, now := FlappingRun(n - 1);
      r, now := FlapAgain(r, now, n - 1);
    }
  }

  /** Four entries into RUNNING can be enough: the bound of
      FailedOpenNeedsFourRuns cannot be raised, and FAILED_OPEN is reachable. */
  lemma FourRunsCanSuffice()
    ensures exists w, now :: Reachable(w, now) && |w.runs| == 4 && !w.stopRequested
                             && w.point == Emitting(FAILED_OPEN, AfterVerdict)
  {
    hide Spent, MinDelay, AfterHealthy;
    var w, before := FlappingRun(29);
    var s, now := WakeAndRun(w, before, 29);
    Extend(s, now, SpawnEnds(0.0), now);
    var r := Step(s, SpawnEnds(0.0), now);
    assert AfterFailure(POLICY, s.breaker, now).failures == s.breaker.failures + [now];
    assert Reachable(r, now) && r.point == Emitting(FAILED_OPEN, AfterVerdict);
  }

  // ---------------------------------------------------------------------
  // Endless retrying
  // ---------------------------------------------------------------------

  /** A failure met in RECONNECTING either opens the breaker or backs off. */
  lemma FailureWhileReconnecting(w: Worker, now: real, rnd: real)
    requires w.point.Spawned? && !w.stopRequested && w.state == RECONNECTING
    ensures
      var b := EvictOld(POLICY, AfterFailure(POLICY, w.breaker, now), now);
      var w0 := w.(breaker := b, exits := w.exits + [Exit(now, w.attempt, |w.runs|)]);
      AfterSpawn(w, now, rnd) == if VerdictOf(POLICY, b).OPEN? then Emit(Opening(w0), FAILED_OPEN, AfterVerdict, now)
                                 else BackOff(w0, now, rnd)
  {
  }

  /** Thirty failures in a window leave room for no more than six attempts
      since the last run. */
  lemma HighAttemptIsNotOpened(exits: seq<Exit>)
    requires exits != [] && PaceOk(exits) && AttemptsOk(exits) && exits[|exits| - 1].attempt >= 29
    ensures !Opened(exits)
  {
    if Opened(exits) {
      var n := |exits|;
      assert exits[n - 30].runsBefore == exits[n - 1].runsBefore;
      PaceInWindow(exits, n - 30, n - 1);
    }
  }

  lemma HighAttemptBacksOff(w: Worker, before: real, now: real, rnd: real)
    requires Inv(w, before) && before <= now
    requires w.point.Spawned? && !w.stopRequested && 0.0 <= rnd < 1.0 && w.attempt >= 29
    ensures
      var b := EvictOld(POLICY, AfterFailure(POLICY, w.breaker, now), now);
      var w0 := w.(breaker := b, exits := w.exits + [Exit(now, w.attempt, |w.runs|)]);
      VerdictOf(POLICY, b).CLOSED? && AfterSpawn(w, now, rnd) == BackOff(w0, now, rnd)
  {
    FailureWhileReconnecting(w, now, rnd);
    var r := AfterSpawn(w, now, rnd);
    assert r == Step(w, SpawnEnds(rnd), now);
    assert Inv(r, now) by { StepKeepsInv(w, before, SpawnEnds(rnd), now); }
    hide AfterSpawn, Opened, PaceOk, AttemptsOk, LegalPath, BreakerOk, RunsOk;
    if r.point.Emitting? {
      HighAttemptIsNotOpened(r.exits);
    }
  }

  /** The respawn loop does not retry for ever. A failure kills the lifecycle
      task exactly when the attempt counter has reached 1024; a verdict cannot
      get in first, since a counter that high means no run in the window. */
  lemma RetryDiesExactlyAt1024(w: Worker, before: real, now: real, rnd: real)
    requires Reachable(w, before) && before <= now
    requires w.point.Spawned? && !w.stopRequested && 0.0 <= rnd < 1.0
    ensures Step(w, SpawnEnds(rnd), now).point.Crashed? <==> w.attempt == FLOAT_EXPONENT_LIMIT
  {
    assert Inv(w, before) by { ReachableKeepsInv(w, before); }
    DelayBounds(w.attempt, rnd);
    if w.state == RECONNECTING {
      FailureWhileReconnecting(w, now, rnd);
      if w.attempt == FLOAT_EXPONENT_LIMIT {
        HighAttemptBacksOff(w, before, now, rnd);
      }
    }
  }

  /** What the counter counts: a dead task has seen 1025 failures in a row
      with no run among them, over at least 13 hours and a half. */
  lemma DeathTakesALongOutage(w: Worker, now: real)
    requires Reachable(w, now) && w.point.Crashed?
    ensures w.state == RECONNECTING
    ensures
      var n := |w.exits|;
      && n >= 1025
      && w.exits[n - 1].at - w.exits[n - 1025].at >= 48914.4
      && forall i :: n - 1025 <= i < n ==> w.exits[i].runsBefore == |w.runs|
  {
    ReachableKeepsInv(w, now);
    var n := |w.exits|;
    assert w.exits[n - 1].attempt == FLOAT_EXPONENT_LIMIT;
    assert w.exits[n - 1025].attempt == 0;
    assert Pace(w.exits[n - 1025], w.exits[n - 1], 1024);
    DebtBounded(FLOAT_EXPONENT_LIMIT);
  }

  /** A spawn that always fails: after `n` failures the worker is asleep. */
  lemma {:induction false} Outage(n: nat) returns (w: Worker, now: real)
    requires 1 <= n <= 1024
    ensures Reachable(w, now) && w.point.Sleeping? && w.point.until >= now
    ensures w.state == RECONNECTING && !w.stopRequested && w.runs == [] && w.attempt == n
  {
    if n == 1 {
      now := 0.0;
      w := FirstFailure();
      DebtBounded(0);
    } else {
      var v, before := Outage(n - 1);
      now := v.point.until;
      Extend(v, before, WakeSleep, now);
      var s := Step(v, WakeSleep, now);
      Extend(s, now, SpawnEnds(0.0), now);
      w := Step(s, SpawnEnds(0.0), now);
      OutageStep(s, now);
    }
  }

  lemma OutageStep(s: Worker, now: real)
    requires Reachable(s, now) && s.point.Spawned? && !s.stopRequested && s.state == RECONNECTING
    requires s.runs == [] && s.attempt < FLOAT_EXPONENT_LIMIT
    ensures
      var w := Step(s, SpawnEnds(0.0), now);
      && w.point == Sleeping(now + MinDelay(s.attempt)) && w.point.until >= now
      && w.state == RECONNECTING && !w.stopRequested && w.runs == [] && w.attempt == s.attempt + 1
  {
    var w := Step(s, SpawnEnds(0.0), now);
    FailureWhileReconnecting(s, now, 0.0);
    assert Inv(w, now) by {
      ReachableKeepsInv(s, now);
      StepKeepsInv(s, now, SpawnEnds(0.0), now);
    }
    if w.point.Emitting? {
      OpenedNeedsFourRuns(w.exits, w.runs, now);
    }
    LeastDelay(s.attempt);
    DebtBounded(s.attempt);
  }

  /** An outage long enough does kill the task, in RECONNECTING, with the
      breaker still closed. */
  lemma LongOutageKillsTheTask()
    ensures exists w, now :: Reachable(w, now) && w.point.Crashed? && w.runs == []
                             && VerdictOf(POLICY, w.breaker).CLOSED?
  {
    var v, before := Outage(1024);
    var now := v.point.until;
    Extend(v, before, WakeSleep, now);
    var s := Step(v, WakeSleep, now);
    LastFailure(s, now);
    Extend(s, now, SpawnEnds(0.0), now);
    var w := Step(s, SpawnEnds(0.0), now);
    assert Reachable(w, now) && w.point.Crashed?;
  }

  lemma LastFailure(s: Worker, now: real)
    requires Reachable(s, now) && s.point.Spawned? && !s.stopRequested && s.runs == []
    requires s.attempt == FLOAT_EXPONENT_LIMIT
    ensures
      var w := Step(s, SpawnEnds(0.0), now);
      w.point.Crashed? && w.runs == [] && VerdictOf(POLICY, w.breaker).CLOSED?
  {
    hide Inv;
    ReachableKeepsInv(s, now);
    HighAttemptBacksOff(s, now, now, 0.0);
  }
}
