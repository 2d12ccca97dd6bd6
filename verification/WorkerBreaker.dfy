/** What the breaker of a worker holds after any run, read off the run: which
    calls it got, when a healthy minute emptied it, and exactly which exits are
    followed by FAILED_OPEN. */
module WorkerBreaker {
  import opened Options
  import opened SlidingWindow
  import opened WorkerStates
  import opened CB = CircuitBreaker
  import opened Backoff
  import opened Lifecycle

  /** The worker a script's last action is taken by. */
  ghost function Before(script: seq<Timed>): Worker
    requires script != [] && RunScript(script).Some?
  {
    RunScript(script[..|script| - 1]).value.0
  }

  // ---------------------------------------------------------------------
  // The calls
  // ---------------------------------------------------------------------

  /** The breaker calls that an action of worker `w` should make: every frame is
      healthy, every exit not asked for is a failure, then a query. */
  function CallsOf(w: Worker, a: Timed): seq<Call> {
    match a.act
    case Frame => [Healthy(a.at)]
    case SpawnEnds(_) => if w.stopRequested then [] else [Failure(a.at), Query(a.at)]
    case Snapshot => [Query(a.at)]
    case UserReset => if w.state == FAILED_OPEN then [Call.UserReset] else []
    case _ => []
  }

  ghost function Calls(script: seq<Timed>): seq<Call>
    requires RunScript(script).Some?
  {
    if script == [] then []
    else Calls(script[..|script| - 1]) + CallsOf(Before(script), script[|script| - 1])
  }

  lemma {:induction false} ContinueKeepsBreaker(w: Worker, resume: Resume, now: real, rnd: real)
    ensures Continue(w, resume, now, rnd).breaker == w.breaker
    decreases Rank(resume), 0
  {
    match resume {
      case EnterLoop =>
        SetStateKeepsBreaker(w, STOPPING, STOP_REQUESTED, FinishStop, now, rnd);
        ContinueKeepsBreaker(w, FinishStop, now, rnd);
      case ApplyVerdict(_) =>
        ContinueKeepsBreaker(w.(warnings := w.warnings + 1), AfterVerdict, now, rnd);
        ContinueKeepsBreaker(w, AfterVerdict, now, rnd);
      case AfterVerdict =>
      case FinishStop =>
        SetStateKeepsBreaker(w, IDLE, STOPPED, Finish, now, rnd);
        ContinueKeepsBreaker(w, Finish, now, rnd);
      case Finish =>
    }
  }

  lemma {:induction false} SetStateKeepsBreaker(w: Worker, next: WorkerState, a: WorkerAction, resume: Resume,
                                                now: real, rnd: real)
    ensures SetState(w, next, a, resume, now, rnd).breaker == w.breaker
    decreases Rank(resume), 1
  {
    hide SetState, Continue, Transition;
    SetStateIs(w, next, a, resume, now, rnd);
    ContinueKeepsBreaker(w.(warnings := w.warnings + 1), resume, now, rnd);
  }

  /** The breaker after the calls of one action. */
  function Called(s: CB.State, calls: seq<Call>): State
    requires |calls| <= 2
  {
    if calls == [] then s
    else if |calls| == 1 then Apply(POLICY, s, calls[0])
    else Apply(POLICY, Apply(POLICY, s, calls[0]), calls[1])
  }

  lemma FrameIsHealthy(w: Worker, now: real)
    requires PointOk(w) && w.point.Spawned?
    ensures AfterFrame(w, now).state == RUNNING && AfterFrame(w, now).breaker == AfterHealthy(POLICY, w.breaker, now)
  {
  }

  lemma SpawnEndIsFailure(w: Worker, now: real, rnd: real)
    ensures AfterSpawn(w, now, rnd).breaker ==
            if w.stopRequested then w.breaker else EvictOld(POLICY, AfterFailure(POLICY, w.breaker, now), now)
  {
    hide Continue, SetState, AfterFailure, EvictOld, VerdictOf;
    if w.stopRequested {
      ContinueKeepsBreaker(w, EnterLoop, now, rnd);
    } else {
      var b := EvictOld(POLICY, AfterFailure(POLICY, w.breaker, now), now);
      var w' := w.(breaker := b, exits := w.exits + [Exit(now, w.attempt, |w.runs|)]);
      ContinueKeepsBreaker(w', ApplyVerdict(VerdictOf(POLICY, b)), now, rnd);
      SetStateKeepsBreaker(w', RECONNECTING, PROCESS_EXITED, ApplyVerdict(VerdictOf(POLICY, b)), now, rnd);
    }
  }

  /** What one action does to the breaker is what its calls do. */
  lemma StepMakesCalls(w: Worker, a: Timed)
    requires PointOk(w) && Enabled(w, a.act, a.at)
    ensures Step(w, a.act, a.at).breaker == Called(w.breaker, CallsOf(w, a))
  {
    hide Continue, SetState, AfterSpawn, AfterFrame;
    var now := a.at;
    match a.act {
      case Launch =>
        SetStateKeepsBreaker(w.(stopRequested := false, resetSet := false), STARTING, START, EnterLoop, now, 0.0);
      case Delivered(rnd) => ContinueKeepsBreaker(w.(state := w.point.next), w.point.resume, now, rnd);
      case Frame => FrameIsHealthy(w, now);
      case SpawnEnds(rnd) => SpawnEndIsFailure(w, now, rnd);
      case WakeReset =>
        ContinueKeepsBreaker(w, EnterLoop, now, 0.0);
        SetStateKeepsBreaker(w, STARTING, USER_RESET, EnterLoop, now, 0.0);
      case WakeSleep => ContinueKeepsBreaker(w, EnterLoop, now, 0.0);
      case _ =>
    }
  }

  lemma OneMoreCall(calls: seq<Call>, c: Call)
    ensures RunCalls(POLICY, calls + [c]) == Apply(POLICY, RunCalls(POLICY, calls), c)
  {
    hide Apply;
    assert (calls + [c])[..|calls|] == calls;
  }

  lemma RunCallsAppend(calls: seq<Call>, more: seq<Call>)
    requires |more| <= 2
    ensures RunCalls(POLICY, calls + more) == Called(RunCalls(POLICY, calls), more)
  {
    hide RunCalls, Apply;
    if more == [] {
      assert calls + more == calls;
    } else {
      OneMoreCall(calls, more[0]);
      if |more| == 1 {
        assert more == [more[0]];
      } else {
        assert calls + more == calls + [more[0]] + [more[1]];
        OneMoreCall(calls + [more[0]], more[1]);
      }
    }
  }

  /** Over every run, the worker's breaker is what its calls make of it: each
      frame reported healthy, each exit a failure and then a query, each snapshot
      a query, each user reset taken in FAILED_OPEN a reset, and nothing else. */
  lemma {:induction false} BreakerGetsItsCalls(script: seq<Timed>)
    requires RunScript(script).Some?
    ensures RunScript(script).value.0.breaker == RunCalls(POLICY, Calls(script))
  {
    if script != [] {
      hide Step, CallsOf, Inv, Called;
      var last := script[|script| - 1];
      var (w, before) := RunScript(script[..|script| - 1]).value;
      BreakerGetsItsCalls(script[..|script| - 1]);
      assert PointOk(w) by {
        RunKeepsInv(script[..|script| - 1]);
        InvPoint(w, before);
      }
      StepMakesCalls(w, last);
      AtMostTwo(w, last);
      RunCallsAppend(Calls(script[..|script| - 1]), CallsOf(w, last));
    }
  }

  lemma AtMostTwo(w: Worker, a: Timed)
    ensures |CallsOf(w, a)| <= 2
  {
  }

  lemma InvPoint(w: Worker, now: real)
    requires Inv(w, now)
    ensures PointOk(w)
  {
  }

  // ---------------------------------------------------------------------
  // Failures on record
  // ---------------------------------------------------------------------

  /** When the first frame of the spawn under way came, if one has. */
  function NextFirst(first: Option<real>, a: Timed): Option<real> {
    match a.act
    case Frame => if first.Some? then first else Some(a.at)
    case SpawnEnds(_) => None
    case _ => first
  }

  function FirstFrame(script: seq<Timed>): Option<real> {
    if script == [] then None else NextFirst(FirstFrame(script[..|script| - 1]), script[|script| - 1])
  }

  /** The failures on record after action `a` of worker `w`, whose spawn under way
      has had its first frame at `first`. */
  function NextRecorded(w: Worker, first: Option<real>, recorded: seq<real>, a: Timed): seq<real> {
    match a.act
    case Frame => if first.Some? && a.at - first.value >= 60.0 then [] else recorded
    case SpawnEnds(_) => if w.stopRequested then recorded else recorded + [a.at]
    case UserReset => if w.state == FAILED_OPEN then [] else recorded
    case _ => recorded
  }

  /** All failures since the last healthy minute and the last user reset taken,
      however old. */
  ghost function Recorded(script: seq<Timed>): seq<real>
    requires RunScript(script).Some?
  {
    if script == [] then []
    else
      var before := script[..|script| - 1];
      NextRecorded(Before(script), FirstFrame(before), Recorded(before), script[|script| - 1])
  }

  /** The healthy timer starts with the first frame of a spawn, and is off
      between spawns as long as no stop is requested. */
  ghost predicate TimerOk(w: Worker, first: Option<real>) {
    if w.point.Spawned? then w.breaker.healthySince == first
    else first == None && (w.point.Fresh? || !w.stopRequested ==> w.breaker.healthySince == None)
  }

  lemma DeliveredKeepsTimer(w: Worker, rnd: real, now: real)
    requires PointOk(w) && w.point.Emitting? && TimerOk(w, None)
    ensures TimerOk(Continue(w.(state := w.point.next), w.point.resume, now, rnd), None)
  {
    hide ComputeBackoff;
    match w.point.resume {
      case EnterLoop =>
      case ApplyVerdict(v) =>
      case AfterVerdict =>
      case FinishStop =>
      case Finish =>
    }
  }

  lemma SpawnEndKeepsTimer(w: Worker, rnd: real, now: real)
    requires PointOk(w) && w.point.Spawned?
    ensures TimerOk(AfterSpawn(w, now, rnd), None)
  {
    hide ComputeBackoff, VerdictOf;
  }

  lemma StepKeepsTimer(w: Worker, first: Option<real>, a: Timed)
    requires PointOk(w) && TimerOk(w, first) && Enabled(w, a.act, a.at)
    ensures TimerOk(Step(w, a.act, a.at), NextFirst(first, a))
  {
    match a.act {
      case Delivered(rnd) => DeliveredKeepsTimer(w, rnd, a.at);
      case SpawnEnds(rnd) => SpawnEndKeepsTimer(w, rnd, a.at);
      case _ =>
    }
  }

  lemma StepKeepsRecord(w: Worker, first: Option<real>, recorded: seq<real>, before: real, a: Timed)
    requires PointOk(w) && TimerOk(w, first) && Enabled(w, a.act, a.at) && before <= a.at
    requires InStep(POLICY, recorded, w.breaker, before)
    ensures InStep(POLICY, NextRecorded(w, first, recorded, a), Step(w, a.act, a.at).breaker, a.at)
  {
    hide Step, PointOk, InStep, EvictOld, AfterFailure, Enabled;
    assert Step(w, a.act, a.at).breaker == Called(w.breaker, CallsOf(w, a)) by { StepMakesCalls(w, a); }
    InStepLater(POLICY, recorded, w.breaker, before, a.at);
    match a.act {
      case Frame =>
        assert w.breaker.healthySince == first by { SpawnedTimer(w, first, a); }
        HealthyInStep(recorded, w.breaker, a.at);
      case SpawnEnds(_) =>
        if !w.stopRequested {
          InStepFailure(POLICY, recorded, w.breaker, a.at);
          InStepTrims(POLICY, recorded + [a.at], AfterFailure(POLICY, w.breaker, a.at), a.at);
        }
      case UserReset =>
        EmptyInStep(a.at);
      case _ =>
    }
  }

  lemma SpawnedTimer(w: Worker, first: Option<real>, a: Timed)
    requires TimerOk(w, first) && a.act.Frame? && Enabled(w, a.act, a.at)
    ensures w.breaker.healthySince == first
  {
  }

  lemma HealthyInStep(recorded: seq<real>, s: CB.State, now: real)
    requires InStep(POLICY, recorded, s, now)
    ensures
      var minute := s.healthySince.Some? && now - s.healthySince.value >= 60.0;
      InStep(POLICY, if minute then [] else recorded, AfterHealthy(POLICY, s, now), now)
  {
  }

  lemma EmptyInStep(now: real)
    ensures InStep(POLICY, [], CB.EMPTY, now)
  {
  }

  lemma {:induction false} RunKeepsRecord(script: seq<Timed>)
    requires RunScript(script).Some?
    ensures
      var (w, now) := RunScript(script).value;
      TimerOk(w, FirstFrame(script)) && InStep(POLICY, Recorded(script), w.breaker, now)
  {
    if script != [] {
      hide Step, Inv, TimerOk, InStep, NextRecorded, NextFirst;
      var last := script[|script| - 1];
      var before := script[..|script| - 1];
      var (w, t) := RunScript(before).value;
      RunKeepsRecord(before);
      assert PointOk(w) by {
        RunKeepsInv(before);
        InvPoint(w, t);
      }
      StepKeepsTimer(w, FirstFrame(before), last);
      StepKeepsRecord(w, FirstFrame(before), Recorded(before), t, last);
    } else {
      assert TimerOk(INITIAL, None) && InStep(POLICY, [], INITIAL.breaker, 0.0);
    }
  }

  // ---------------------------------------------------------------------
  // Healthy minutes
  // ---------------------------------------------------------------------

  /** Frame `i` belongs to the spawn under way after the script. */
  ghost predicate OfThisSpawn(script: seq<Timed>, i: nat) {
    i < |script| && script[i].act.Frame? && forall k :: i < k < |script| ==> !script[k].act.SpawnEnds?
  }

  /** The first frame is one of this spawn, and no other is earlier. */
  lemma {:induction false} FirstFrameIsFirst(script: seq<Timed>)
    requires RunScript(script).Some?
    ensures FirstFrame(script).Some? ==>
      exists i: nat :: OfThisSpawn(script, i) && FirstFrame(script) == Some(script[i].at)
    ensures FirstFrame(script).Some? ==> FirstFrame(script).value <= RunScript(script).value.1
    ensures forall i: nat :: OfThisSpawn(script, i) ==>
      FirstFrame(script).Some? && FirstFrame(script).value <= script[i].at
  {
    if script != [] {
      hide Step, Enabled;
      var n := |script| - 1;
      FirstFrameIsFirst(script[..n]);
      SpawnFrames(script);
      if FirstFrame(script[..n]).Some? {
        var i: nat :| OfThisSpawn(script[..n], i) && FirstFrame(script[..n]) == Some(script[..n][i].at);
        assert OfThisSpawn(script, i) || script[n].act.SpawnEnds?;
      }
    }
  }

  lemma SpawnFrames(script: seq<Timed>)
    requires script != []
    ensures
      var n := |script| - 1;
      forall i: nat :: OfThisSpawn(script, i) <==>
        (i == n && script[n].act.Frame?) || (i < n && OfThisSpawn(script[..n], i) && !script[n].act.SpawnEnds?)
  {
    var n := |script| - 1;
    forall i: nat
      ensures OfThisSpawn(script, i) <==>
        (i == n && script[n].act.Frame?) || (i < n && OfThisSpawn(script[..n], i) && !script[n].act.SpawnEnds?)
    {
      if i < n && OfThisSpawn(script[..n], i) && !script[n].act.SpawnEnds? {
        forall k | i < k < |script| ensures !script[k].act.SpawnEnds? {
          assert k < n ==> script[..n][k] == script[k];
        }
      }
      if i < n && OfThisSpawn(script, i) {
        assert forall k :: i < k < n ==> script[..n][k] == script[k];
      }
    }
  }

  /** Over every run, a frame empties the breaker exactly when an earlier frame of
      the same spawn lies at least sixty seconds back; any other frame leaves the
      failures as they were. */
  lemma HealthyMinuteClears(script: seq<Timed>)
    requires RunScript(script).Some? && script != [] && script[|script| - 1].act.Frame?
    ensures
      var before, now := script[..|script| - 1], script[|script| - 1].at;
      var minute := exists i: nat :: OfThisSpawn(before, i) && now - before[i].at >= 60.0;
      RunScript(script).value.0.breaker.failures == if minute then [] else Before(script).breaker.failures
  {
    var before, last := script[..|script| - 1], script[|script| - 1];
    var (w, t) := RunScript(before).value;
    RunKeepsInv(before);
    RunKeepsRecord(before);
    FirstFrameIsFirst(before);
    FrameIsHealthy(w, last.at);
  }

  // ---------------------------------------------------------------------
  // FAILED_OPEN, exactly
  // ---------------------------------------------------------------------

  /** Thirty failures on record, the oldest of those at most five minutes old. */
  predicate Thirty(recorded: seq<real>, now: real) {
    |recorded| >= 30 && now - recorded[|recorded| - 30] <= 300.0
  }

  /** The failure count a snapshot shows at any later time: at least `k` exactly
      if the `k`-th last failure on record is at most five minutes old. */
  lemma CountIsExact(script: seq<Timed>, later: real, k: nat)
    requires RunScript(script).Some? && RunScript(script).value.1 <= later
    ensures
      var recorded := Recorded(script);
      k <= |EvictOld(POLICY, RunScript(script).value.0.breaker, later).failures| <==>
        k == 0 || (k <= |recorded| && later - recorded[|recorded| - k] <= 300.0)
  {
    hide InStep, Recorded, EvictOld;
    var (w, now) := RunScript(script).value;
    RunKeepsRecord(script);
    LiveFailures(Recorded(script), w.breaker, now, later, k);
  }

  lemma LiveFailures(recorded: seq<real>, s: CB.State, now: real, later: real, k: nat)
    requires InStep(POLICY, recorded, s, now) && now <= later
    ensures
      k <= |EvictOld(POLICY, s, later).failures| <==>
        k == 0 || (k <= |recorded| && later - recorded[|recorded| - k] <= 300.0)
  {
    hide Live, Evict, Retains;
    assert Sorted(recorded);
    hide Sorted;
    InStepLater(POLICY, recorded, s, now, later);
    LiveCount(DropBefore, recorded, later - 300.0, k);
  }

  lemma VerdictIsExact(script: seq<Timed>)
    requires RunScript(script).Some?
    ensures
      var (w, now) := RunScript(script).value;
      VerdictOf(POLICY, EvictOld(POLICY, w.breaker, now)).OPEN? <==> Thirty(Recorded(script), now)
  {
    CountIsExact(script, RunScript(script).value.1, 30);
  }

  /** Where verdict `v` on a failure at `now` takes a worker whose attempt counter
      stood at `attempt`: to FAILED_OPEN, or to sleep for the delay of that attempt. */
  ghost predicate GoesTo(r: Worker, v: Verdict, attempt: nat, now: real, rnd: real) {
    if v.OPEN? then r.point == Emitting(FAILED_OPEN, AfterVerdict)
    else if attempt == 1024 then r.point == Crashed
    else r.point == Sleeping(now + Seconds(attempt) * (0.8 + 0.4 * rnd)) && r.attempt == attempt + 1
  }

  lemma VerdictRoutes(w: Worker, v: Verdict, now: real, rnd: real)
    requires w.state == RECONNECTING && w.attempt <= 1024 && 0.0 <= rnd < 1.0
    ensures GoesTo(Continue(w, ApplyVerdict(v), now, rnd), v, w.attempt, now, rnd)
  {
    hide ComputeBackoff, Seconds, Opening;
    if w.attempt < 1024 {
      DelayIsExact(w.attempt, rnd);
    } else {
      NoDelay(rnd);
    }
    VerdictInReconnecting(w, v, now, rnd);
  }

  lemma NoDelay(rnd: real)
    ensures !ComputeBackoff(1024, rnd).Delay?
  {
  }

  /** A failure is judged at once in RECONNECTING; in STARTING and RUNNING the
      worker first announces RECONNECTING. */
  ghost predicate Judged(w: Worker, r: Worker, v: Verdict, now: real, rnd: real) {
    if w.state == RECONNECTING then GoesTo(r, v, w.attempt, now, rnd)
    else r.point == Emitting(RECONNECTING, ApplyVerdict(v)) && r.state == w.state && r.attempt == w.attempt == 0
  }

  lemma ExitRoutes(w: Worker, now: real, rnd: real)
    requires PointOk(w) && w.point.Spawned? && !w.stopRequested && 0.0 <= rnd < 1.0
    ensures
      var b := EvictOld(POLICY, AfterFailure(POLICY, w.breaker, now), now);
      Judged(w, AfterSpawn(w, now, rnd), VerdictOf(POLICY, b), now, rnd) && AfterSpawn(w, now, rnd).breaker == b
  {
    hide ComputeBackoff, EvictOld, AfterFailure, VerdictOf, GoesTo;
    SpawnEndIsFailure(w, now, rnd);
    var b := EvictOld(POLICY, AfterFailure(POLICY, w.breaker, now), now);
    if w.state == RECONNECTING {
      var w' := w.(breaker := b, exits := w.exits + [Exit(now, w.attempt, |w.runs|)]);
      VerdictRoutes(w', VerdictOf(POLICY, b), now, rnd);
    }
  }

  lemma EvictAgain(s: CB.State, now: real)
    ensures EvictOld(POLICY, EvictOld(POLICY, s, now), now) == EvictOld(POLICY, s, now)
  {
    EvictTwice(s.failures, now - POLICY.window);
  }

  /** Over every run: after an exit nobody asked for, the worker goes to
      FAILED_OPEN if and only if, since the last healthy minute and the last user
      reset, thirty failures lie in the last five minutes. Otherwise it sleeps for
      the delay of its attempt. */
  lemma FailedOpenExactly(script: seq<Timed>)
    requires RunScript(script).Some? && script != [] && script[|script| - 1].act.SpawnEnds?
    requires !Before(script).stopRequested
    ensures
      var (r, now) := RunScript(script).value;
      Judged(Before(script), r, if Thirty(Recorded(script), now) then OPEN else CLOSED, now,
             script[|script| - 1].act.rnd)
  {
    hide Judged, Thirty, AfterSpawn, EvictOld, VerdictOf, AfterFailure;
    var last := script[|script| - 1];
    var before := script[..|script| - 1];
    var (w, t) := RunScript(before).value;
    assert PointOk(w) by {
      RunKeepsInv(before);
      InvPoint(w, t);
    }
    ExitRoutes(w, last.at, last.act.rnd);
    VerdictIsExact(script);
    EvictAgain(AfterFailure(POLICY, w.breaker, last.at), last.at);
  }

  /** Until its state event is sent, nothing others do changes where it goes. */
  lemma {:induction false} NextStaysPut(script: seq<Timed>, rest: seq<Timed>)
    requires RunScript(script + rest).Some?
    requires RunScript(script).Some? && RunScript(script).value.0.point.Emitting?
    requires RunScript(script).value.0.state != FAILED_OPEN
    requires forall i :: 0 <= i < |rest| ==> !rest[i].act.Delivered?
    ensures
      var r, v := RunScript(script).value.0, RunScript(script + rest).value.0;
      v.point == r.point && v.state == r.state && v.attempt == r.attempt
    decreases |rest|
  {
    if rest == [] {
      assert script + rest == script;
    } else {
      var n := |rest| - 1;
      assert (script + rest)[..|script + rest| - 1] == script + rest[..n];
      NextStaysPut(script, rest[..n]);
    }
  }

  /** A worker announcing RECONNECTING after a first failure: once that event is
      sent, it goes where the record at the failure says, whatever others did in
      between. */
  lemma AnnouncedExactly(script: seq<Timed>, rest: seq<Timed>, sent: Timed)
    requires RunScript(script).Some? && script != [] && script[|script| - 1].act.SpawnEnds?
    requires !Before(script).stopRequested && Before(script).state != RECONNECTING
    requires forall i :: 0 <= i < |rest| ==> !rest[i].act.Delivered?
    requires sent.act.Delivered? && RunScript(script + rest + [sent]).Some?
    ensures
      var thirty := Thirty(Recorded(script), RunScript(script).value.1);
      GoesTo(RunScript(script + rest + [sent]).value.0, if thirty then OPEN else CLOSED, 0, sent.at, sent.act.rnd)
  {
    hide Thirty, Continue, AfterSpawn, AfterFrame, GoesTo;
    var whole := script + rest + [sent];
    assert whole[..|whole| - 1] == script + rest;
    FailedOpenExactly(script);
    NotReset(script);
    NextStaysPut(script, rest);
    var w := RunScript(script + rest).value.0;
    VerdictRoutes(w.(state := RECONNECTING), w.point.resume.verdict, sent.at, sent.act.rnd);
  }

  lemma NotReset(script: seq<Timed>)
    requires RunScript(script).Some? && script != [] && script[|script| - 1].act.SpawnEnds?
    ensures Before(script).state != FAILED_OPEN
  {
    var before := script[..|script| - 1];
    RunKeepsInv(before);
    InvPoint(RunScript(before).value.0, RunScript(before).value.1);
  }
}
