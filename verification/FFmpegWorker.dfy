/** The worker object of app/fanout/ffmpeg_worker.py with its fields updated in
    place. Each method is one stretch of the source's coroutines between two
    awaits, and is proved to do what the corresponding step of Lifecycle does,
    so every theorem about Lifecycle's runs is one about this object. */
module FFmpegWorkers {
  import opened Options
  import opened WorkerStates
  import opened CB = CircuitBreaker
  import opened Backoff
  import opened Lifecycle

  class FFmpegWorker {
    var state: WorkerState
    var attempt: nat
    const breaker: Breaker
    var stopRequested: bool
    var userResetEvent: bool
    var point: Point
    var warnings: nat
    var sent: seq<StateEvent>
    ghost var exits: seq<Exit>
    ghost var runs: seq<real>
    ghost var openings: map<nat, real>

    ghost predicate Valid()
      reads this, breaker
    {
      breaker.policy == POLICY
    }

    /** The object's value as a state of the lifecycle machine. */
    ghost function Abs(): Worker
      reads this, breaker
    {
      Worker(state, attempt, breaker.Abs(), stopRequested, userResetEvent, point, warnings, sent, exits, runs,
             openings)
    }

    constructor ()
      ensures Valid() && Abs() == INITIAL && fresh(breaker)
    {
      state, attempt := IDLE, 0;
      stopRequested, userResetEvent := false, false;
      point, warnings, sent := Fresh, 0, [];
      exits, runs, openings := [], [], map[];
      breaker := new Breaker(POLICY);
    }

    method EmitStateChange(next: WorkerState, resume: Resume, now: real)
      requires Valid()
      modifies this
      ensures Valid() && Abs() == Emit(old(Abs()), next, resume, now)
    {
      sent := sent + [StateEvent(state, next, now)];
      point := Emitting(next, resume);
    }

    /** `_set_state`, followed by what its caller does next. */
    method SetStateVia(next: WorkerState, action: WorkerAction, resume: Resume, now: real, rnd: real)
      requires Valid()
      modifies this
      ensures Valid() && Abs() == SetState(old(Abs()), next, action, resume, now, rnd)
      decreases Rank(resume), 1
    {
      hide Continue, Transition, SetState, Emit;
      ghost var before := Abs();
      var verified := Transition(state, action, None);
      SetStateIs(before, next, action, resume, now, rnd);
      if verified.None? {
        warnings := warnings + 1;
        assert Abs() == before.(warnings := before.warnings + 1);
        ContinueWith(resume, now, rnd);
        return;
      }
      if verified.value != next {
        warnings := warnings + 1;
        assert Abs() == before.(warnings := before.warnings + 1);
      }
      EmitStateChange(verified.value, resume, now);
    }

    /** `_apply_reconnect_verdict`, and what follows it. */
    method ApplyReconnectVerdict(verdict: Verdict, now: real, rnd: real)
      requires Valid()
      modifies this
      ensures Valid() && Abs() == Continue(old(Abs()), ApplyVerdict(verdict), now, rnd)
    {
      hide Transition, BackOff;
      ghost var before := Abs();
      var next := Transition(state, RECONNECT, Some(verdict));
      if next.None? {
        warnings := warnings + 1;
        assert Abs() == before.(warnings := before.warnings + 1);
        ParkOrBackOff(now, rnd);
      } else if next.value == state {
        ParkOrBackOff(now, rnd);
      } else {
        if exits != [] {
          openings := openings[|sent| := exits[|exits| - 1].at];
        }
        assert Abs() == Opening(before);
        EmitStateChange(next.value, AfterVerdict, now);
      }
    }

    /** Waits for a user reset in FAILED_OPEN, and backs off otherwise. */
    method ParkOrBackOff(now: real, rnd: real)
      requires Valid()
      modifies this
      ensures Valid() && Abs() == Continue(old(Abs()), AfterVerdict, now, rnd)
    {
      hide ComputeBackoff;
      if state == FAILED_OPEN {
        userResetEvent := false;
        point := Parked;
      } else {
        var delay := ComputeBackoff(attempt, rnd);
        if delay.Delay? {
          attempt := attempt + 1;
          point := Sleeping(now + delay.seconds);
        } else {
          point := Crashed;
        }
      }
    }

    method ContinueWith(resume: Resume, now: real, rnd: real)
      requires Valid()
      modifies this
      ensures Valid() && Abs() == Continue(old(Abs()), resume, now, rnd)
      decreases Rank(resume), 0
    {
      hide Transition, SetState, BackOff, Emit;
      match resume {
        case EnterLoop =>
          if !stopRequested {
            point := Spawned;
          } else if state != STOPPING && state != IDLE {
            SetStateVia(STOPPING, STOP_REQUESTED, FinishStop, now, rnd);
          } else {
            ContinueWith(FinishStop, now, rnd);
          }
        case ApplyVerdict(verdict) =>
          ApplyReconnectVerdict(verdict, now, rnd);
        case AfterVerdict =>
          ParkOrBackOff(now, rnd);
        case FinishStop =>
          if state == STOPPING {
            SetStateVia(IDLE, STOPPED, Finish, now, rnd);
          } else {
            ContinueWith(Finish, now, rnd);
          }
        case Finish =>
          point := Done;
      }
    }

    /** `start()`: schedules the loop; a second call while it runs is a no-op. */
    method Start(now: real)
      requires Valid()
      modifies this
      ensures Valid()
      ensures Abs() == if old(point).Fresh? || old(point).Done? || old(point).Crashed? then Launched(old(Abs()), now)
                       else old(Abs())
    {
      if !point.Fresh? && !point.Done? && !point.Crashed? {
        return;
      }
      stopRequested, userResetEvent := false, false;
      SetStateVia(STARTING, START, EnterLoop, now, 0.0);
    }

    /** The pending state event has been sent. */
    method OnDelivered(now: real, rnd: real)
      requires Valid() && Enabled(Abs(), Delivered(rnd), now)
      modifies this
      ensures Valid() && Abs() == Step(old(Abs()), Delivered(rnd), now)
    {
      state := point.next;
      ContinueWith(point.resume, now, rnd);
    }

    /** One progress frame in `_stdout_pump`. */
    method OnFrame(now: real)
      requires Valid() && Enabled(Abs(), Frame, now)
      modifies this, breaker
      ensures Valid() && Abs() == Step(old(Abs()), Frame, now)
      ensures PointOk(old(Abs())) ==>
        state == RUNNING && attempt == 0 && breaker.Abs() == AfterHealthy(POLICY, old(breaker.Abs()), now)
    {
      if state == STARTING {
        PumpSetRunning(now);
      } else if state == RECONNECTING {
        PumpSetRunning(now);
        attempt := 0;
      }
      if state == RUNNING {
        breaker.RecordHealthy(now);
      }
    }

    method PumpSetRunning(now: real)
      requires Valid()
      modifies this
      ensures Valid() && Abs() == PumpRunning(old(Abs()), now)
    {
      var verified := Transition(state, PROCESS_HEALTHY, None);
      if verified.None? {
        warnings := warnings + 1;
        return;
      }
      if verified.value != RUNNING {
        warnings := warnings + 1;
      }
      sent := sent + [StateEvent(state, verified.value, now)];
      state := verified.value;
      runs := runs + [now];
    }

    /** The spawn failed or the process exited: record it, take the verdict,
        and route. */
    method OnSpawnEnded(now: real, rnd: real)
      requires Valid() && Enabled(Abs(), SpawnEnds(rnd), now)
      modifies this, breaker
      ensures Valid() && Abs() == Step(old(Abs()), SpawnEnds(rnd), now)
    {
      if stopRequested {
        ContinueWith(EnterLoop, now, rnd);
        return;
      }
      breaker.RecordFailure(now);
      var verdict := breaker.ShouldOpen(now);
      exits := exits + [Exit(now, attempt, |runs|)];
      if state == STARTING || state == RUNNING {
        SetStateVia(RECONNECTING, PROCESS_EXITED, ApplyVerdict(verdict), now, rnd);
      } else {
        ContinueWith(ApplyVerdict(verdict), now, rnd);
      }
    }

    method OnResetEvent(now: real)
      requires Valid() && Enabled(Abs(), WakeReset, now)
      modifies this
      ensures Valid() && Abs() == Step(old(Abs()), WakeReset, now)
    {
      if stopRequested {
        ContinueWith(EnterLoop, now, 0.0);
      } else {
        SetStateVia(STARTING, USER_RESET, EnterLoop, now, 0.0);
      }
    }

    method OnBackoffOver(now: real)
      requires Valid() && Enabled(Abs(), WakeSleep, now)
      modifies this
      ensures Valid() && Abs() == Step(old(Abs()), WakeSleep, now)
    {
      ContinueWith(EnterLoop, now, 0.0);
    }

    /** `user_reset()`: a no-op outside FAILED_OPEN. */
    method Retry(now: real)
      requires Valid()
      modifies this, breaker
      ensures Valid() && Abs() == Step(old(Abs()), Action.UserReset, now)
    {
      if state != FAILED_OPEN {
        return;
      }
      breaker.Reset();
      attempt := 0;
      userResetEvent := true;
      exits := [];
    }

    /** `stop()`, as far as the lifecycle task can see it. */
    method RequestStop(now: real)
      requires Valid()
      modifies this
      ensures Valid() && Abs() == Step(old(Abs()), Stop, now)
    {
      stopRequested := true;
      userResetEvent := true;
    }

    /** The failure count of `snapshot()`. */
    method BreakerCount(now: real) returns (n: nat)
      requires Valid()
      modifies breaker
      ensures Valid() && Abs() == Step(old(Abs()), Snapshot, now)
      ensures n == |Abs().breaker.failures|
    {
      n := breaker.FailureCountInWindow(now);
    }
  }
}
