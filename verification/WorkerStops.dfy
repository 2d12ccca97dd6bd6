/** When a requested stop brings the lifecycle task to its end in IDLE. This is
    about the task alone: two seconds after its request `stop()` cancels a task
    that has not ended (app/fanout/ffmpeg_worker.py:261-267), which would end a
    lost one as well, but with an exception and outside IDLE. */
module WorkerStops {
  import opened Options
  import opened WorkerStates
  import opened CB = CircuitBreaker
  import opened Backoff
  import opened Lifecycle
  import opened WorkerOutcomes

  /** The lifecycle task goes on: a send returns, the process exits, or a wait
      is over. The other actions belong to other tasks. */
  predicate Resumes(a: Action) {
    a.Delivered? || a.SpawnEnds? || a.WakeReset? || a.WakeSleep?
  }

  /** A stop is requested, and the task has begun and not died. */
  predicate Stopping(w: Worker) {
    w.stopRequested && !w.point.Fresh? && !w.point.Crashed?
  }

  /** The stop came between the failure that opens the breaker and the clearing
      of the wake-up event that follows FAILED_OPEN, or was already lost so. */
  predicate StopIsLost(w: Worker) {
    match w.point
    case Emitting(_, ApplyVerdict(v)) => v.OPEN?
    case Emitting(_, AfterVerdict) => true
    case Parked => !w.resetSet
    case _ => false
  }

  /** How many times the task of a stopped worker still resumes. */
  function ToGo(w: Worker): (n: nat)
    ensures n <= 4
  {
    match w.point
    case Emitting(_, EnterLoop) => 3
    case Emitting(_, ApplyVerdict(v)) => if v.OPEN? then 2 else 4
    case Emitting(_, AfterVerdict) => 1
    case Emitting(_, FinishStop) => 2
    case Emitting(_, Finish) => 1
    case Parked => if w.resetSet then 3 else 0
    case Done => 0
    case _ => 3
  }

  /** An action that could wake a task whose stop was lost. */
  predicate Wakes(a: Action) { a.UserReset? || a.Stop? }

  /** Each resumption brings the task one nearer to where it ends, and nothing
      else moves it, or turns a stop into a lost one or back. */
  ghost predicate Nears(w: Worker, a: Action, r: Worker) {
    && Stopping(r) && StopIsLost(r) == StopIsLost(w)
    && ToGo(w) == ToGo(r) + if Resumes(a) then 1 else 0
  }

  lemma DeliveredNears(w: Worker, now: real, rnd: real)
    requires LocalOk(w, now) && Stopping(w) && w.point.Emitting? && 0.0 <= rnd < 1.0
    ensures Nears(w, Delivered(rnd), Step(w, Delivered(rnd), now))
  {
    hide LegalPath, Opened;
    match w.point.resume {
      case ApplyVerdict(v) =>
        assert w.attempt == 0 && w.point.next == RECONNECTING;
        DelayBounds(0, rnd);
      case _ =>
    }
  }

  lemma SpawnEndsNears(w: Worker, a: Action, now: real)
    requires PointOk(w) && Stopping(w) && Enabled(w, a, now) && a.SpawnEnds?
    ensures Nears(w, a, Step(w, a, now))
  {
  }

  lemma WakeNears(w: Worker, a: Action, now: real)
    requires PointOk(w) && Stopping(w) && Enabled(w, a, now) && (a.WakeReset? || a.WakeSleep?)
    ensures Nears(w, a, Step(w, a, now))
  {
  }

  lemma StepNears(w: Worker, a: Action, now: real)
    requires LocalOk(w, now) && Stopping(w) && Enabled(w, a, now) && (StopIsLost(w) ==> !Wakes(a))
    ensures Nears(w, a, Step(w, a, now))
  {
    hide EventsOk, OwedOk;
    match a {
      case Delivered(rnd) => DeliveredNears(w, now, rnd);
      case SpawnEnds(_) => SpawnEndsNears(w, a, now);
      case WakeReset => WakeNears(w, a, now);
      case WakeSleep => WakeNears(w, a, now);
      case _ =>
    }
  }

  /** What a script leads to from `w` at time `before`. */
  ghost function RunFrom(w: Worker, before: real, script: seq<Timed>): (r: Option<(Worker, real)>) {
    if script == [] then Some((w, before))
    else
      var last := script[|script| - 1];
      match RunFrom(w, before, script[..|script| - 1])
      case None => None
      case Some((v, now)) =>
        if now <= last.at && Enabled(v, last.act, last.at)
        then Some((Step(v, last.act, last.at), last.at)) else None
  }

  function Resumptions(script: seq<Timed>): nat {
    if script == [] then 0
    else Resumptions(script[..|script| - 1]) + if Resumes(script[|script| - 1].act) then 1 else 0
  }

  lemma {:induction false} ScriptNears(w: Worker, before: real, script: seq<Timed>)
    requires Inv(w, before) && Stopping(w)
    requires StopIsLost(w) ==> forall i :: 0 <= i < |script| ==> !Wakes(script[i].act)
    ensures
      var end := RunFrom(w, before, script);
      end.Some? ==>
        && Inv(end.value.0, end.value.1) && Stopping(end.value.0)
        && StopIsLost(end.value.0) == StopIsLost(w)
        && ToGo(w) == ToGo(end.value.0) + Resumptions(script)
    decreases |script|
  {
    hide Inv, Step, Enabled, ToGo, StopIsLost;
    if script != [] {
      var n := |script| - 1;
      ScriptNears(w, before, script[..n]);
      var end := RunFrom(w, before, script);
      if end.Some? {
        var (v, now) := RunFrom(w, before, script[..n]).value;
        StepInScript(v, now, script[n].act, script[n].at);
      }
    }
  }

  lemma StepInScript(w: Worker, before: real, a: Action, now: real)
    requires Inv(w, before) && before <= now && Stopping(w) && Enabled(w, a, now) && (StopIsLost(w) ==> !Wakes(a))
    ensures Inv(Step(w, a, now), now) && Nears(w, a, Step(w, a, now))
  {
    LaterKeepsInv(w, before, now);
    StepNears(w, a, now);
    StepKeepsInv(w, before, a, now);
  }

  /** The task can be resumed now, or is only waiting for the process to exit
      and its events to be taken. */
  ghost predicate CanResume(w: Worker, now: real) {
    exists a :: Resumes(a) && Enabled(w, a, now)
  }

  /** However the other tasks interleave, a stopped worker's task ends in IDLE at
      its fourth resumption at the latest, and can be resumed until then, if and
      only if the stop was not lost. After a lost one it comes to rest in
      FAILED_OPEN, where it cannot be resumed. */
  lemma StopSettlesUnlessLost(w: Worker, before: real, script: seq<Timed>)
    requires Reachable(w, before) && Stopping(w)
    requires StopIsLost(w) ==> forall i :: 0 <= i < |script| ==> !Wakes(script[i].act)
    ensures
      var end := RunFrom(w, before, script);
      end.Some? ==>
        var (r, now) := end.value;
        && Resumptions(script) + ToGo(r) == ToGo(w) <= 4
        && (CanResume(r, now) <==> ToGo(r) > 0)
        && (ToGo(r) == 0 ==>
              if StopIsLost(w) then r.point.Parked? && r.state == FAILED_OPEN && !r.resetSet
              else r.point.Done? && r.state == IDLE)
  {
    ReachableKeepsInv(w, before);
    ScriptNears(w, before, script);
    var end := RunFrom(w, before, script);
    if end.Some? {
      ResumesUntilSettled(end.value.0, end.value.1);
    }
  }

  lemma ResumesUntilSettled(w: Worker, now: real)
    requires LocalOk(w, now) && Stopping(w)
    ensures CanResume(w, now) <==> ToGo(w) > 0
    ensures w.point.Parked? ==> w.state == FAILED_OPEN
    ensures w.point.Done? ==> w.state == IDLE
  {
    if ToGo(w) > 0 {
      var a := if w.point.Emitting? then Delivered(0.0)
               else if w.point.Spawned? then SpawnEnds(0.0)
               else if w.point.Parked? then WakeReset else WakeSleep;
      assert Resumes(a) && Enabled(w, a, now);
    }
  }

  /** A stop requested before the worker is started is forgotten: once STARTING is
      announced, it spawns. */
  lemma StopBeforeStartIsForgotten(w: Worker, before: real, now: real, sent: real, rnd: real)
    requires Reachable(w, before) && before <= now <= sent && w.point.Fresh? && 0.0 <= rnd < 1.0
    ensures
      var started := Step(w, Launch, now);
      && started.point == Emitting(STARTING, EnterLoop)
      && var r := Step(started, Delivered(rnd), sent);
      && r.state == STARTING && r.point.Spawned? && !r.stopRequested
  {
    ReachableKeepsInv(w, before);
  }

  /** What does wake a task whose stop was lost: a user reset, or another stop.
      It is then three resumptions from its end. */
  lemma LostStopCanBeWoken(w: Worker, before: real, a: Action, now: real)
    requires Reachable(w, before) && Stopping(w) && w.point.Parked? && !w.resetSet && Wakes(a)
    ensures
      var r := Step(w, a, now);
      Stopping(r) && !StopIsLost(r) && ToGo(r) == 3
  {
    ReachableKeepsInv(w, before);
  }

  /** The lost stop happens: a stop while FAILED_OPEN is being announced. */
  lemma StopCanBeLost()
    ensures exists w, now :: Reachable(w, now) && w.stopRequested && w.point.Parked? && !w.resetSet
  {
    FourRunsCanSuffice();
    var w, now :| Reachable(w, now) && |w.runs| == 4 && !w.stopRequested
      && w.point == Emitting(FAILED_OPEN, AfterVerdict);
    Extend(w, now, Stop, now);
    var s := Step(w, Stop, now);
    Extend(s, now, Delivered(0.0), now);
    var r := Step(s, Delivered(0.0), now);
    assert Reachable(r, now) && r.stopRequested && r.point.Parked? && !r.resetSet;
  }
}
