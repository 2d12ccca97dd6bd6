/** The worker lifecycle of app/fanout/ffmpeg_worker.py as a state machine.
    A coroutine is cut at its awaits: `Point` says where the lifecycle task is
    suspended, and each `Action` is one uninterrupted stretch of code run by
    the lifecycle task, the stdout pump, or a caller of `user_reset`, `stop`
    or `snapshot`. Every interleaving of those stretches is a script. */
module Lifecycle {
  import opened Options
  import opened SlidingWindow
  import opened WorkerStates
  import opened CB = CircuitBreaker
  import opened Backoff

  /** What the lifecycle task does after a state event has been sent. */
  datatype Resume =
    | EnterLoop                       // the loop head
    | ApplyVerdict(verdict: Verdict)  // _apply_reconnect_verdict
    | AfterVerdict                    // park in FAILED_OPEN, or back off
    | FinishStop                      // STOPPING to IDLE
    | Finish                          // return

  datatype Point =
    | Fresh                                        // start() not called yet
    | Emitting(next: WorkerState, resume: Resume)  // sending a state event
    | Spawned                                      // inside _run_one_spawn
    | Parked                                       // waiting for user_reset or stop
    | Sleeping(until: real)                        // backing off
    | Crashed                                      // the task died of OverflowError
    | Done

  datatype StateEvent = StateEvent(previous: WorkerState, next: WorkerState, at: real)

  /** One call of `record_failure`, with the attempt counter and the number of
      entries into RUNNING up to then. */
  datatype Exit = Exit(at: real, attempt: nat, runsBefore: nat)

  /** The worker's fields, the suspension point, and four histories: the state
      events sent, the failures since the last user reset, the times at which
      RUNNING was entered, and, for each FAILED_OPEN among the events, when the
      failure that opened the breaker was recorded. `warnings` counts refused or mismatched
      transitions in `_set_state`, and refused ones in
      `_apply_reconnect_verdict`, which returns early on them. */
  datatype Worker = Worker(
    state: WorkerState,
    attempt: nat,
    breaker: CB.State,
    stopRequested: bool,
    resetSet: bool,
    point: Point,
    warnings: nat,
    events: seq<StateEvent>,
    exits: seq<Exit>,
    runs: seq<real>,
    openings: map<nat, real>)

  const POLICY := CB.DEFAULT_POLICY

  const INITIAL := Worker(IDLE, 0, CB.EMPTY, false, false, Fresh, 0, [], [], [], map[])

  datatype Action =
    | Launch                 // start()
    | Delivered(rnd: real)   // the pending state event is sent
    | Frame                  // the stdout pump parsed a progress frame
    | SpawnEnds(rnd: real)   // the spawn failed, or the process exited
    | WakeReset              // the reset event is set
    | WakeSleep              // the delay elapsed, or stop was requested
    | UserReset
    | Stop
    | Snapshot

  // ---------------------------------------------------------------------
  // The code
  // ---------------------------------------------------------------------

  function Rank(r: Resume): nat {
    match r
    case EnterLoop => 4
    case ApplyVerdict(_) => 3
    case AfterVerdict => 2
    case FinishStop => 1
    case Finish => 0
  }

  function Emit(w: Worker, next: WorkerState, resume: Resume, now: real): Worker {
    w.(events := w.events + [StateEvent(w.state, next, now)], point := Emitting(next, resume))
  }

  /** Notes, of the state event about to be sent, when the last failure was. */
  function Opening(w: Worker): Worker {
    if w.exits == [] then w else w.(openings := w.openings[|w.events| := w.exits[|w.exits| - 1].at])
  }

  /** `_set_state`, with its refused and mismatched branches. */
  function SetState(w: Worker, next: WorkerState, a: WorkerAction, resume: Resume, now: real, rnd: real): Worker
    decreases Rank(resume), 1
  {
    match Transition(w.state, a, None)
    case None => Continue(w.(warnings := w.warnings + 1), resume, now, rnd)
    case Some(verified) =>
      Emit(if verified == next then w else w.(warnings := w.warnings + 1), verified, resume, now)
  }

  function BackOff(w: Worker, now: real, rnd: real): Worker {
    match ComputeBackoff(w.attempt, rnd)
    case Delay(d) => w.(attempt := w.attempt + 1, point := Sleeping(now + d))
    case _ => w.(point := Crashed)
  }

  function Continue(w: Worker, resume: Resume, now: real, rnd: real): Worker
    decreases Rank(resume), 0
  {
    match resume
    case EnterLoop =>
      if !w.stopRequested then w.(point := Spawned)
      else if w.state != STOPPING && w.state != IDLE then
        SetState(w, STOPPING, STOP_REQUESTED, FinishStop, now, rnd)
      else Continue(w, FinishStop, now, rnd)
    case ApplyVerdict(verdict) =>
      var next := Transition(w.state, RECONNECT, Some(verdict));
      if next.None? then Continue(w.(warnings := w.warnings + 1), AfterVerdict, now, rnd)
      else if next.value == w.state then Continue(w, AfterVerdict, now, rnd)
      else Emit(Opening(w), next.value, AfterVerdict, now)
    case AfterVerdict =>
      if w.state == FAILED_OPEN then w.(resetSet := false, point := Parked)
      else BackOff(w, now, rnd)
    case FinishStop =>
      if w.state == STOPPING then SetState(w, IDLE, STOPPED, Finish, now, rnd)
      else Continue(w, Finish, now, rnd)
    case Finish => w.(point := Done)
  }

  lemma SetStateIs(w: Worker, next: WorkerState, a: WorkerAction, resume: Resume, now: real, rnd: real)
    ensures SetState(w, next, a, resume, now, rnd) ==
            match Transition(w.state, a, None)
            case None => Continue(w.(warnings := w.warnings + 1), resume, now, rnd)
            case Some(v) => Emit(if v == next then w else w.(warnings := w.warnings + 1), v, resume, now)
  {
    hide Transition, Emit, Continue;
  }

  /** Lines 301 to 332: the spawn is over. */
  function AfterSpawn(w: Worker, now: real, rnd: real): Worker {
    if w.stopRequested then Continue(w, EnterLoop, now, rnd)
    else
      var b := EvictOld(POLICY, AfterFailure(POLICY, w.breaker, now), now);
      var v := VerdictOf(POLICY, b);
      var w' := w.(breaker := b, exits := w.exits + [Exit(now, w.attempt, |w.runs|)]);
      if w.state == STARTING || w.state == RUNNING then
        SetState(w', RECONNECTING, PROCESS_EXITED, ApplyVerdict(v), now, rnd)
      else Continue(w', ApplyVerdict(v), now, rnd)
  }

  /** The pump's `_set_state(RUNNING, PROCESS_HEALTHY)`: the lifecycle task is
      waiting for the pumps, so the send and the assignment are one step. */
  function PumpRunning(w: Worker, now: real): Worker {
    match Transition(w.state, PROCESS_HEALTHY, None)
    case None => w.(warnings := w.warnings + 1)
    case Some(verified) =>
      w.(events := w.events + [StateEvent(w.state, verified, now)],
         warnings := if verified == RUNNING then w.warnings else w.warnings + 1,
         state := verified,
         runs := w.runs + [now])
  }

  function AfterFrame(w: Worker, now: real): Worker {
    var w1 := if w.state == STARTING then PumpRunning(w, now)
              else if w.state == RECONNECTING then PumpRunning(w, now).(attempt := 0)
              else w;
    if w1.state == RUNNING then w1.(breaker := AfterHealthy(POLICY, w1.breaker, now)) else w1
  }

  predicate Enabled(w: Worker, a: Action, now: real) {
    match a
    case Launch => w.point.Fresh?
    case Delivered(r) => w.point.Emitting? && 0.0 <= r < 1.0
    case Frame => w.point.Spawned?
    case SpawnEnds(r) => w.point.Spawned? && 0.0 <= r < 1.0
    case WakeReset => w.point.Parked? && w.resetSet
    case WakeSleep => w.point.Sleeping? && (now >= w.point.until || w.stopRequested)
    case UserReset => true
    case Stop => true
    case Snapshot => true
  }

  /** `start()` of a task that is not running, up to the first state event. */
  function Launched(w: Worker, now: real): Worker {
    SetState(w.(stopRequested := false, resetSet := false), STARTING, START, EnterLoop, now, 0.0)
  }

  function Step(w: Worker, a: Action, now: real): Worker
    requires Enabled(w, a, now)
  {
    match a
    case Launch => Launched(w, now)
    case Delivered(r) => Continue(w.(state := w.point.next), w.point.resume, now, r)
    case Frame => AfterFrame(w, now)
    case SpawnEnds(r) => AfterSpawn(w, now, r)
    case WakeReset =>
      if w.stopRequested then Continue(w, EnterLoop, now, 0.0)
      else SetState(w, STARTING, USER_RESET, EnterLoop, now, 0.0)
    case WakeSleep => Continue(w, EnterLoop, now, 0.0)
    case UserReset =>
      if w.state == FAILED_OPEN then
        w.(breaker := CB.EMPTY, attempt := 0, resetSet := true, exits := [])
      else w
    case Stop => w.(stopRequested := true, resetSet := true)
    case Snapshot => w.(breaker := EvictOld(POLICY, w.breaker, now))
  }

  datatype Timed = Timed(act: Action, at: real)

  /** What a script leads to, from a new worker. */
  ghost function RunScript(script: seq<Timed>): (r: Option<(Worker, real)>) {
    if script == [] then Some((INITIAL, 0.0))
    else
      var last := script[|script| - 1];
      match RunScript(script[..|script| - 1])
      case None => None
      case Some((w, now)) =>
        if now <= last.at && Enabled(w, last.act, last.at)
        then Some((Step(w, last.act, last.at), last.at)) else None
  }

  /** Some interleaving of actions, under a clock that never goes back, leads
      a new worker to `w` at time `now`. */
  ghost predicate Reachable(w: Worker, now: real) {
    exists script :: RunScript(script) == Some((w, now))
  }

  // ---------------------------------------------------------------------
  // What every step keeps
  // ---------------------------------------------------------------------

  /** Where each suspension point can be met, and with which fields. */
  ghost predicate PointOk(w: Worker) {
    && w.warnings == 0
    && w.attempt <= FLOAT_EXPONENT_LIMIT
    && (w.state == STARTING || w.state == RUNNING ==> w.attempt == 0)
    && match w.point
       case Fresh => w.state == IDLE && w.attempt == 0 && w.exits == []
       case Emitting(next, EnterLoop) =>
         (w.state == IDLE || w.state == FAILED_OPEN) && next == STARTING && w.attempt == 0
       case Emitting(next, ApplyVerdict(_)) =>
         (w.state == STARTING || w.state == RUNNING) && next == RECONNECTING
       case Emitting(next, AfterVerdict) => w.state == RECONNECTING && next == FAILED_OPEN
       case Emitting(next, FinishStop) =>
         w.state != IDLE && w.state != STOPPING && next == STOPPING && w.stopRequested
       case Emitting(next, Finish) => w.state == STOPPING && next == IDLE && w.stopRequested
       case Spawned => w.state == STARTING || w.state == RUNNING || w.state == RECONNECTING
       case Parked => w.state == FAILED_OPEN
       case Sleeping(_) => w.state == RECONNECTING
       case Crashed => w.state == RECONNECTING && w.attempt == FLOAT_EXPONENT_LIMIT
       case Done => w.state == IDLE && w.stopRequested
  }

  /** The state the last event announced. */
  function Announced(w: Worker): WorkerState {
    if w.point.Emitting? then w.point.next else w.state
  }

  /** The events form one connected path of legal moves out of IDLE. */
  ghost predicate LegalPath(events: seq<StateEvent>) {
    && (events != [] ==> events[0].previous == IDLE)
    && (forall i :: 0 <= i < |events| ==> LegalMove(events[i].previous, events[i].next))
    && (forall i :: 0 < i < |events| ==> events[i - 1].next == events[i].previous)
  }

  ghost predicate EventsOk(w: Worker) {
    && LegalPath(w.events)
    && Announced(w) == (if w.events == [] then IDLE else w.events[|w.events| - 1].next)
    && (w.point.Emitting? ==> w.events != [] && w.events[|w.events| - 1].previous == w.state)
  }

  /** The breaker holds a suffix of the failures recorded since the last reset. */
  ghost predicate BreakerOk(kept: seq<real>, exits: seq<Exit>) {
    && |kept| <= |exits|
    && forall i :: 0 <= i < |kept| ==> kept[i] == exits[|exits| - |kept| + i].at
  }

  /** How much time must lie between two failures: 48 s for each failure after
      the first, less what the schedule may owe, less what each entry into
      RUNNING can have forgiven. */
  ghost predicate Pace(e: Exit, f: Exit, steps: nat) {
    && e.runsBefore <= f.runsBefore
    && f.at - e.at >= 48.0 * steps as real - (Debt(f.attempt) - Debt(e.attempt))
                      - MAX_DEBT * (f.runsBefore - e.runsBefore) as real
  }

  ghost predicate PaceOk(exits: seq<Exit>) {
    forall i, j :: 0 <= i <= j < |exits| ==> Pace(exits[i], exits[j], j - i)
  }

  ghost predicate RunsOk(runs: seq<real>, exits: seq<Exit>, now: real) {
    && (forall k :: 0 <= k < |runs| ==> runs[k] <= now)
    && (forall i :: 0 <= i < |exits| ==> exits[i].runsBefore <= |runs| && exits[i].at <= now)
    && (forall i, k :: 0 <= i < |exits| && exits[i].runsBefore <= k < |runs| ==> exits[i].at <= runs[k])
  }

  /** Thirty failures inside one window, the last of them just recorded. */
  ghost predicate Opened(exits: seq<Exit>) {
    |exits| >= 30 && exits[|exits| - 1].at - exits[|exits| - 30].at <= 300.0
  }

  /** What the last failure leaves owing, at each suspension point. */
  ghost predicate OwedOk(w: Worker, now: real) {
    if w.exits == [] then
      && !w.point.Sleeping? && !w.point.Crashed?
      && !(w.point.Emitting? && (w.point.resume.ApplyVerdict? || w.point.resume.AfterVerdict?))
      && (w.point.Spawned? || w.point.Parked? ==> w.attempt == 0)
    else
      var e := w.exits[|w.exits| - 1];
      match w.point
      case Emitting(_, EnterLoop) => false
      case Emitting(_, ApplyVerdict(v)) =>
        w.attempt == e.attempt && |w.runs| == e.runsBefore && (v.OPEN? ==> Opened(w.exits))
      case Emitting(_, AfterVerdict) => Opened(w.exits)
      case Spawned =>
        && e.at + MinDelay(e.attempt) <= now
        && w.attempt == (if |w.runs| == e.runsBefore then e.attempt + 1 else 0)
      case Parked => w.resetSet ==> w.stopRequested
      case Sleeping(until) =>
        && e.at + MinDelay(e.attempt) <= until
        && |w.runs| == e.runsBefore && w.attempt == e.attempt + 1
      case Crashed => |w.runs| == e.runsBefore && w.attempt == e.attempt
      case _ => true
  }

  /** Failures since RUNNING was last entered carry consecutive attempt
      numbers, ending with the last one. */
  ghost predicate AttemptsOk(exits: seq<Exit>) {
    forall j :: 0 <= j < |exits| ==>
      && exits[j].attempt <= j
      && forall i :: j - exits[j].attempt <= i <= j ==>
           exits[i].attempt == exits[j].attempt - (j - i) && exits[i].runsBefore == exits[j].runsBefore
  }

  /** Failures are recorded in the order of the clock. */
  ghost predicate Ordered(exits: seq<Exit>) {
    forall i, j :: 0 <= i <= j < |exits| ==> exits[i].at <= exits[j].at
  }

  /** What holds of the histories alone. */
  ghost predicate HistoryOk(kept: seq<real>, exits: seq<Exit>, runs: seq<real>, now: real) {
    && BreakerOk(kept, exits) && Ordered(exits) && PaceOk(exits)
    && AttemptsOk(exits) && RunsOk(runs, exits, now)
  }

  ghost predicate LocalOk(w: Worker, now: real) {
    PointOk(w) && EventsOk(w) && OwedOk(w, now)
  }

  ghost predicate Inv(w: Worker, now: real) {
    LocalOk(w, now) && HistoryOk(w.breaker.failures, w.exits, w.runs, now)
  }

  predicate SameHistory(w: Worker, r: Worker) {
    r.breaker == w.breaker && r.exits == w.exits && r.runs == w.runs
  }

  lemma InvInitially()
    ensures Inv(INITIAL, 0.0)
  {
  }

  lemma {:induction false} PaceAppend(exits: seq<Exit>, f: Exit)
    requires PaceOk(exits)
    requires exits != [] ==> Pace(exits[|exits| - 1], f, 1)
    ensures PaceOk(exits + [f])
  {
    var ext := exits + [f];
    forall i, j | 0 <= i <= j < |ext|
      ensures Pace(ext[i], ext[j], j - i)
    {
      if j == |exits| && i < j {
        assert Pace(exits[i], exits[j - 1], j - 1 - i);
      }
    }
  }

  lemma AttemptsAppend(exits: seq<Exit>, f: Exit)
    requires AttemptsOk(exits)
    requires f.attempt > 0 ==> exits != [] && f.attempt == exits[|exits| - 1].attempt + 1
                               && f.runsBefore == exits[|exits| - 1].runsBefore
    ensures AttemptsOk(exits + [f])
  {
    var ext := exits + [f];
    forall j | 0 <= j < |ext|
      ensures ext[j].attempt <= j
      ensures forall i :: j - ext[j].attempt <= i <= j ==>
        ext[i].attempt == ext[j].attempt - (j - i) && ext[i].runsBefore == ext[j].runsBefore
    {
      if j == |exits| && f.attempt > 0 {
        assert exits[j - 1].attempt <= j - 1;
      }
    }
  }

  /** The gap between two successive failures, as the backoff enforces it. */
  lemma GapIsPaced(e: Exit, f: Exit)
    requires e.at + MinDelay(e.attempt) <= f.at && e.runsBefore <= f.runsBefore
    requires f.attempt == if f.runsBefore == e.runsBefore then e.attempt + 1 else 0
    ensures Pace(e, f, 1)
  {
    DebtBounded(e.attempt);
    DebtBounded(e.attempt + 1);
  }

  lemma EvictKeepsBreaker(kept: seq<real>, exits: seq<Exit>, cut: real)
    requires BreakerOk(kept, exits)
    ensures BreakerOk(Evict(DropBefore, kept, cut), exits)
  {
    EvictShape(DropBefore, kept, cut);
  }

  lemma BreakerAppend(kept: seq<real>, exits: seq<Exit>, f: Exit)
    requires BreakerOk(kept, exits)
    ensures BreakerOk(kept + [f.at], exits + [f])
  {
  }

  /** The breaker opens only on thirty failures within the window. */
  lemma OpenMeansOpened(kept: seq<real>, exits: seq<Exit>, now: real)
    requires BreakerOk(kept, exits) && Ordered(exits) && |kept| >= 30
    requires exits[|exits| - 1].at == now && Evict(DropBefore, kept, now - 300.0) == kept
    ensures Opened(exits)
  {
    EvictShape(DropBefore, kept, now - 300.0);
    assert kept[0] == exits[|exits| - |kept|].at;
  }

  /** One more failure keeps the histories, given what the deque then holds. */
  lemma HistoryGrows(failures: seq<real>, exits: seq<Exit>, runs: seq<real>, f: Exit, left: seq<real>)
    requires HistoryOk(failures, exits, runs, f.at) && f.runsBefore == |runs| && BreakerOk(left, exits + [f])
    requires exits != [] ==> Pace(exits[|exits| - 1], f, 1)
    requires f.attempt > 0 ==> exits != [] && f.attempt == exits[|exits| - 1].attempt + 1
                               && f.runsBefore == exits[|exits| - 1].runsBefore
    ensures HistoryOk(left, exits + [f], runs, f.at)
  {
    PaceAppend(exits, f);
    AttemptsAppend(exits, f);
    OrderAppend(runs, exits, f);
  }

  /** What the deque holds after a failure, and that OPEN is said rightly. */
  lemma RecordedBreaker(breaker: CB.State, exits: seq<Exit>, f: Exit) returns (b: CB.State)
    requires BreakerOk(breaker.failures, exits) && Ordered(exits + [f])
    ensures b == EvictOld(POLICY, AfterFailure(POLICY, breaker, f.at), f.at)
    ensures BreakerOk(b.failures, exits + [f]) && (VerdictOf(POLICY, b).OPEN? ==> Opened(exits + [f]))
  {
    b := EvictOld(POLICY, AfterFailure(POLICY, breaker, f.at), f.at);
    BreakerRecords(breaker.failures, exits, f);
  }

  lemma OrderAppend(runs: seq<real>, exits: seq<Exit>, f: Exit)
    requires Ordered(exits) && RunsOk(runs, exits, f.at) && f.runsBefore == |runs|
    ensures Ordered(exits + [f]) && RunsOk(runs, exits + [f], f.at)
  {
  }

  lemma BreakerRecords(failures: seq<real>, exits: seq<Exit>, f: Exit)
    requires BreakerOk(failures, exits) && Ordered(exits + [f])
    ensures
      var cut := f.at - 300.0;
      var left := Evict(DropBefore, Evict(DropBefore, failures, cut) + [f.at], cut);
      BreakerOk(left, exits + [f]) && (|left| >= 30 ==> Opened(exits + [f]))
  {
    var cut := f.at - 300.0;
    EvictKeepsBreaker(failures, exits, cut);
    var kept := Evict(DropBefore, failures, cut);
    BreakerAppend(kept, exits, f);
    EvictKeepsBreaker(kept + [f.at], exits + [f], cut);
    var left := Evict(DropBefore, kept + [f.at], cut);
    if |left| >= 30 {
      EvictTwice(kept + [f.at], cut);
      OpenMeansOpened(left, exits + [f], f.at);
    }
  }

  lemma {:induction false} EvictTwice(ts: seq<real>, cut: real)
    ensures Evict(DropBefore, Evict(DropBefore, ts, cut), cut) == Evict(DropBefore, ts, cut)
  {
    EvictShape(DropBefore, ts, cut);
  }

  lemma MoveIsLegal(s: WorkerState, t: WorkerState, a: WorkerAction, v: Option<Verdict>)
    requires s != t && Transition(s, a, v) == Some(t)
    ensures LegalMove(s, t)
  {
  }

  lemma PathAppend(events: seq<StateEvent>, e: StateEvent)
    requires LegalPath(events) && LegalMove(e.previous, e.next)
    requires e.previous == (if events == [] then IDLE else events[|events| - 1].next)
    ensures LegalPath(events + [e])
  {
  }

  /** Sending a state event of a legal move keeps the event path. */
  lemma EmitKeepsEvents(w: Worker, next: WorkerState, resume: Resume, now: real)
    requires EventsOk(w) && !w.point.Emitting? && LegalMove(w.state, next)
    ensures EventsOk(Emit(w, next, resume, now))
  {
    PathAppend(w.events, StateEvent(w.state, next, now));
  }

  /** A worker that leaves the loop announces STOPPING, then IDLE. */
  lemma LeaveKeepsLocal(w: Worker, now: real, rnd: real)
    requires LocalOk(w, now) && w.stopRequested
    requires w.point.Emitting? ==> w.point.resume.EnterLoop?
    requires w.point.Emitting? || w.point.Spawned? || w.point.Parked? || w.point.Sleeping?
    ensures
      var w0 := if w.point.Emitting? then w.(state := w.point.next) else w;
      var r := Continue(w0, EnterLoop, now, rnd);
      LocalOk(r, now) && SameHistory(w, r)
  {
    var w0 := if w.point.Emitting? then w.(state := w.point.next, point := Spawned) else w;
    MoveIsLegal(w0.state, STOPPING, STOP_REQUESTED, None);
    EmitKeepsEvents(w0, STOPPING, FinishStop, now);
  }

  lemma LaunchKeepsLocal(w: Worker, now: real)
    requires LocalOk(w, now) && w.point.Fresh?
    ensures LocalOk(Step(w, Launch, now), now) && SameHistory(w, Step(w, Launch, now))
  {
    MoveIsLegal(IDLE, STARTING, START, None);
    EmitKeepsEvents(w.(stopRequested := false, resetSet := false), STARTING, EnterLoop, now);
  }

  lemma RunsAppend(runs: seq<real>, exits: seq<Exit>, now: real)
    requires RunsOk(runs, exits, now)
    ensures RunsOk(runs + [now], exits, now)
  {
  }

  lemma FrameKeepsLocal(w: Worker, now: real)
    requires LocalOk(w, now) && w.point.Spawned?
    requires w.exits != [] ==> w.exits[|w.exits| - 1].runsBefore <= |w.runs|
    ensures LocalOk(AfterFrame(w, now), now)
  {
    hide LegalPath, LegalMove, Opened;
    if w.state != RUNNING {
      MoveIsLegal(w.state, RUNNING, PROCESS_HEALTHY, None);
      PathAppend(w.events, StateEvent(w.state, RUNNING, now));
    }
  }

  lemma FrameKeepsHistory(w: Worker, now: real)
    requires HistoryOk(w.breaker.failures, w.exits, w.runs, now)
    ensures
      var r := AfterFrame(w, now);
      HistoryOk(r.breaker.failures, r.exits, r.runs, now)
  {
    hide PaceOk, AttemptsOk, Ordered, RunsOk;
    RunsAppend(w.runs, w.exits, now);
  }

  lemma FrameKeepsInv(w: Worker, now: real)
    requires Inv(w, now) && w.point.Spawned?
    ensures Inv(AfterFrame(w, now), now)
  {
    assert w.exits != [] ==> w.exits[|w.exits| - 1].runsBefore <= |w.runs|;
    FrameKeepsLocal(w, now);
    FrameKeepsHistory(w, now);
  }

  /** Acting on a verdict, in RECONNECTING with the failure just recorded. */
  lemma VerdictKeepsLocal(w: Worker, v: Verdict, now: real, rnd: real)
    requires w.state == RECONNECTING && !w.point.Emitting? && w.warnings == 0 && 0.0 <= rnd < 1.0
    requires EventsOk(w) && w.exits != []
    requires
      var e := w.exits[|w.exits| - 1];
      w.attempt == e.attempt <= FLOAT_EXPONENT_LIMIT && |w.runs| == e.runsBefore && e.at <= now
    requires v.OPEN? ==> Opened(w.exits)
    ensures
      var r := Continue(w, ApplyVerdict(v), now, rnd);
      LocalOk(r, now) && SameHistory(w, r)
  {
    if v.OPEN? {
      MoveIsLegal(RECONNECTING, FAILED_OPEN, RECONNECT, Some(v));
      EmitKeepsEvents(w, FAILED_OPEN, AfterVerdict, now);
    } else {
      BackOffKeepsLocal(w, now, rnd);
    }
  }

  lemma BackOffKeepsLocal(w: Worker, now: real, rnd: real)
    requires w.state == RECONNECTING && !w.point.Emitting? && w.warnings == 0 && 0.0 <= rnd < 1.0
    requires EventsOk(w) && w.exits != []
    requires
      var e := w.exits[|w.exits| - 1];
      w.attempt == e.attempt <= FLOAT_EXPONENT_LIMIT && |w.runs| == e.runsBefore && e.at <= now
    ensures LocalOk(BackOff(w, now, rnd), now) && SameHistory(w, BackOff(w, now, rnd))
  {
    DelayBounds(w.attempt, rnd);
  }

  lemma SpawnEndsKeepsInv(w: Worker, now: real, rnd: real)
    requires Inv(w, now) && w.point.Spawned? && 0.0 <= rnd < 1.0
    ensures Inv(AfterSpawn(w, now, rnd), now)
  {
    if w.stopRequested {
      LeaveKeepsLocal(w, now, rnd);
    } else {
      hide PaceOk, AttemptsOk, LegalPath, Opened, Transition;
      var f := Exit(now, w.attempt, |w.runs|);
      if w.exits != [] {
        GapIsPaced(w.exits[|w.exits| - 1], f);
      }
      OrderAppend(w.runs, w.exits, f);
      var b := RecordedBreaker(w.breaker, w.exits, f);
      HistoryGrows(w.breaker.failures, w.exits, w.runs, f, b.failures);
      FailureKeepsInv(w, b, VerdictOf(POLICY, b), now, rnd);
    }
  }

  /** Announcing RECONNECTING, or acting on the verdict at once. */
  lemma FailureKeepsInv(w: Worker, b: CB.State, v: Verdict, now: real, rnd: real)
    requires PointOk(w) && EventsOk(w) && w.point.Spawned? && 0.0 <= rnd < 1.0
    requires HistoryOk(b.failures, w.exits + [Exit(now, w.attempt, |w.runs|)], w.runs, now)
    requires v.OPEN? ==> Opened(w.exits + [Exit(now, w.attempt, |w.runs|)])
    ensures
      var w' := w.(breaker := b, exits := w.exits + [Exit(now, w.attempt, |w.runs|)]);
      Inv(if w.state == RECONNECTING then Continue(w', ApplyVerdict(v), now, rnd)
          else SetState(w', RECONNECTING, PROCESS_EXITED, ApplyVerdict(v), now, rnd), now)
  {
    var w' := w.(breaker := b, exits := w.exits + [Exit(now, w.attempt, |w.runs|)]);
    if w.state == RECONNECTING {
      VerdictKeepsLocal(w', v, now, rnd);
    } else {
      MoveIsLegal(w.state, RECONNECTING, PROCESS_EXITED, None);
      EmitKeepsEvents(w', RECONNECTING, ApplyVerdict(v), now);
    }
  }

  lemma EntryKeepsLocal(w: Worker, now: real, rnd: real)
    requires LocalOk(w, now) && w.point.Emitting? && w.point.resume.EnterLoop?
    ensures
      var r := Continue(w.(state := w.point.next), EnterLoop, now, rnd);
      LocalOk(r, now) && SameHistory(w, r)
  {
    if w.stopRequested {
      LeaveKeepsLocal(w, now, rnd);
    }
  }

  lemma StoppedKeepsLocal(w: Worker, now: real, rnd: real)
    requires LocalOk(w, now) && w.point.Emitting?
    requires w.point.resume.FinishStop? || w.point.resume.Finish? || w.point.resume.AfterVerdict?
    ensures
      var r := Continue(w.(state := w.point.next), w.point.resume, now, rnd);
      LocalOk(r, now) && SameHistory(w, r)
  {
    if w.point.resume.FinishStop? {
      MoveIsLegal(STOPPING, IDLE, STOPPED, None);
      EmitKeepsEvents(w.(state := w.point.next, point := Spawned), IDLE, Finish, now);
    }
  }

  /** Acting on a verdict in RECONNECTING. */
  lemma VerdictInReconnecting(w: Worker, v: Verdict, now: real, rnd: real)
    requires w.state == RECONNECTING
    ensures Continue(w, ApplyVerdict(v), now, rnd) ==
            if v.OPEN? then Emit(Opening(w), FAILED_OPEN, AfterVerdict, now) else BackOff(w, now, rnd)
  {
    hide BackOff, Opening, Emit;
  }

  /** Where the task was suspended does not matter once it acts on a verdict. */
  lemma PointIsOverwritten(w: Worker, p: Point, v: Verdict, now: real, rnd: real)
    requires w.state == RECONNECTING
    ensures Continue(w.(point := p), ApplyVerdict(v), now, rnd) == Continue(w, ApplyVerdict(v), now, rnd)
  {
    hide ComputeBackoff, Continue;
    VerdictInReconnecting(w, v, now, rnd);
    VerdictInReconnecting(w.(point := p), v, now, rnd);
  }

  lemma DeliveredKeepsLocal(w: Worker, now: real, rnd: real)
    requires LocalOk(w, now) && w.point.Emitting? && 0.0 <= rnd < 1.0
    requires w.exits != [] ==> w.exits[|w.exits| - 1].at <= now
    ensures
      var r := Continue(w.(state := w.point.next), w.point.resume, now, rnd);
      LocalOk(r, now) && SameHistory(w, r)
  {
    hide Continue, Opened, LegalPath;
    match w.point.resume {
      case EnterLoop => EntryKeepsLocal(w, now, rnd);
      case ApplyVerdict(v) =>
        var w0 := w.(state := w.point.next);
        VerdictKeepsLocal(w0.(point := Spawned), v, now, rnd);
        PointIsOverwritten(w0, Spawned, v, now, rnd);
      case _ => StoppedKeepsLocal(w, now, rnd);
    }
  }

  lemma WakeKeepsLocal(w: Worker, a: Action, now: real)
    requires LocalOk(w, now) && Enabled(w, a, now) && (a.WakeReset? || a.WakeSleep?)
    ensures LocalOk(Step(w, a, now), now) && SameHistory(w, Step(w, a, now))
  {
    if w.stopRequested {
      LeaveKeepsLocal(w, now, 0.0);
    } else if a.WakeReset? {
      MoveIsLegal(FAILED_OPEN, STARTING, USER_RESET, None);
      EmitKeepsEvents(w, STARTING, EnterLoop, now);
    }
  }

  lemma LaterKeepsInv(w: Worker, before: real, now: real)
    requires Inv(w, before) && before <= now
    ensures Inv(w, now)
  {
  }

  lemma SameHistoryKeepsInv(w: Worker, r: Worker, now: real)
    requires Inv(w, now) && LocalOk(r, now) && SameHistory(w, r)
    ensures Inv(r, now)
  {
  }

  lemma ResetKeepsInv(w: Worker, now: real)
    requires Inv(w, now)
    ensures Inv(Step(w, Action.UserReset, now), now)
  {
  }

  lemma StopKeepsInv(w: Worker, now: real)
    requires Inv(w, now)
    ensures Inv(Step(w, Stop, now), now)
  {
    hide HistoryOk, LegalPath, Opened;
  }

  lemma SnapshotKeepsInv(w: Worker, now: real)
    requires Inv(w, now)
    ensures Inv(Step(w, Snapshot, now), now)
  {
    hide PaceOk, AttemptsOk, RunsOk, Ordered, BreakerOk, LegalPath, Opened;
    EvictKeepsBreaker(w.breaker.failures, w.exits, now - POLICY.window);
  }

  lemma TaskKeepsLocal(w: Worker, a: Action, now: real)
    requires Inv(w, now) && Enabled(w, a, now)
    requires a.Launch? || a.Delivered? || a.WakeReset? || a.WakeSleep?
    ensures LocalOk(Step(w, a, now), now) && SameHistory(w, Step(w, a, now))
  {
    match a {
      case Launch => LaunchKeepsLocal(w, now);
      case Delivered(r) => DeliveredKeepsLocal(w, now, r);
      case _ => WakeKeepsLocal(w, a, now);
    }
  }

  /** Every action, by whatever task, keeps the invariant. */
  lemma StepKeepsInv(w: Worker, before: real, a: Action, now: real)
    requires Inv(w, before) && before <= now && Enabled(w, a, now)
    ensures Inv(Step(w, a, now), now)
  {
    hide LocalOk, HistoryOk, Continue, AfterSpawn, AfterFrame;
    LaterKeepsInv(w, before, now);
    match a {
      case Frame => FrameKeepsInv(w, now);
      case SpawnEnds(r) => SpawnEndsKeepsInv(w, now, r);
      case UserReset => ResetKeepsInv(w, now);
      case Stop => StopKeepsInv(w, now);
      case Snapshot => SnapshotKeepsInv(w, now);
      case _ =>
        TaskKeepsLocal(w, a, now);
        SameHistoryKeepsInv(w, Step(w, a, now), now);
    }
  }

  lemma {:induction false} RunKeepsInv(script: seq<Timed>)
    ensures RunScript(script).Some? ==> Inv(RunScript(script).value.0, RunScript(script).value.1)
  {
    if script == [] {
      InvInitially();
    } else {
      RunKeepsInv(script[..|script| - 1]);
      var last := script[|script| - 1];
      if RunScript(script).Some? {
        var (w, now) := RunScript(script[..|script| - 1]).value;
        StepKeepsInv(w, now, last.act, last.at);
      }
    }
  }

  lemma ReachableKeepsInv(w: Worker, now: real)
    requires Reachable(w, now)
    ensures Inv(w, now)
  {
    var script :| RunScript(script) == Some((w, now));
    RunKeepsInv(script);
  }
}
