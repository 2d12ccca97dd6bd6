/** What the worker lifecycle guarantees over every run: which state events it
    can send, when the breaker can open, when a stop settles and when the task
    can die. */
module WorkerTheorems {
  import opened Options
  import opened WorkerStates
  import opened CB = CircuitBreaker
  import opened Backoff
  import opened Lifecycle

  // ---------------------------------------------------------------------
  // The state events
  // ---------------------------------------------------------------------

  /** The moves a worker may announce. */
  const MOVES := {
    (IDLE, STARTING),
    (STARTING, RUNNING), (STARTING, RECONNECTING), (STARTING, STOPPING),
    (RUNNING, RECONNECTING), (RUNNING, STOPPING),
    (RECONNECTING, RUNNING), (RECONNECTING, FAILED_OPEN), (RECONNECTING, STOPPING),
    (FAILED_OPEN, STARTING), (FAILED_OPEN, STOPPING),
    (STOPPING, IDLE)
  }

  lemma LegalMovesAreListed(s: WorkerState, t: WorkerState)
    ensures LegalMove(s, t) <==> (s, t) in MOVES
  {
    if (s, t) in MOVES {
      match t {
        case IDLE => assert Transition(s, STOPPED, None) == Some(t);
        case STARTING => assert Transition(s, if s == IDLE then START else USER_RESET, None) == Some(t);
        case RUNNING => assert Transition(s, PROCESS_HEALTHY, None) == Some(t);
        case RECONNECTING => assert Transition(s, PROCESS_EXITED, None) == Some(t);
        case FAILED_OPEN => assert Transition(s, RECONNECT, Some(OPEN)) == Some(t);
        case STOPPING => assert Transition(s, STOP_REQUESTED, None) == Some(t);
      }
    }
  }

  /** Whatever the interleaving, the events sent form one connected path of
      listed moves out of IDLE that ends where the worker stands.
      `_set_state` never meets a refused or mismatched transition, nor
      `_apply_reconnect_verdict` a refused one. */
  lemma EventsAreALegalPath(w: Worker, now: real)
    requires Reachable(w, now)
    ensures LegalPath(w.events) && w.warnings == 0
    ensures forall i :: 0 <= i < |w.events| ==> (w.events[i].previous, w.events[i].next) in MOVES
    ensures (if w.events == [] then IDLE else w.events[|w.events| - 1].next) == Announced(w)
  {
    ReachableKeepsInv(w, now);
    forall i | 0 <= i < |w.events| ensures (w.events[i].previous, w.events[i].next) in MOVES {
      LegalMovesAreListed(w.events[i].previous, w.events[i].next);
    }
  }

  /** A spawn begins only in STARTING or RECONNECTING, and never once stop was
      requested. */
  lemma SpawnsOnlyWhenDue(w: Worker, a: Action, before: real, now: real)
    requires Reachable(w, before) && before <= now && Enabled(w, a, now)
    requires !w.point.Spawned? && Step(w, a, now).point.Spawned?
    ensures Step(w, a, now).state == STARTING || Step(w, a, now).state == RECONNECTING
    ensures !Step(w, a, now).stopRequested
  {
    ReachableKeepsInv(w, before);
    EntersSpawn(w, a, before, now);
  }

  lemma EntersSpawn(w: Worker, a: Action, before: real, now: real)
    requires LocalOk(w, before) && Enabled(w, a, now)
    requires !w.point.Spawned? && Step(w, a, now).point.Spawned?
    ensures Step(w, a, now).state == STARTING || Step(w, a, now).state == RECONNECTING
    ensures !Step(w, a, now).stopRequested
  {
    match a {
      case Delivered(_) =>
        match w.point.resume {
          case EnterLoop =>
          case ApplyVerdict(v) => assert w.point.next == RECONNECTING;
          case AfterVerdict =>
          case FinishStop =>
          case Finish =>
        }
      case _ =>
    }
  }

  // ---------------------------------------------------------------------
  // When the breaker opens
  // ---------------------------------------------------------------------

  /** The composition of backoff and breaker: failures `i` to `j` of one window
      cannot outnumber what the schedule lets through, and only entries into
      RUNNING loosen it. */
  lemma FailuresPerWindow(w: Worker, now: real, i: nat, j: nat)
    requires Reachable(w, now)
    requires i <= j < |w.exits| && w.exits[j].at - w.exits[i].at <= 300.0
    ensures
      var entries := w.exits[j].runsBefore - w.exits[i].runsBefore;
      && entries >= 0
      && 48.0 * (j - i) as real <= 300.0 + MAX_DEBT * (1 + entries) as real
      && (entries == 0 ==> j - i + 1 <= 12)
  {
    ReachableKeepsInv(w, now);
    PaceInWindow(w.exits, i, j);
  }

  lemma PaceInWindow(exits: seq<Exit>, i: nat, j: nat)
    requires PaceOk(exits)
    requires i <= j < |exits| && exits[j].at - exits[i].at <= 300.0
    ensures
      var entries := exits[j].runsBefore - exits[i].runsBefore;
      && entries >= 0
      && 48.0 * (j - i) as real <= 300.0 + MAX_DEBT * (1 + entries) as real
      && (entries == 0 ==> j - i + 1 <= 12)
      && (j - i >= 29 ==> entries >= 4)
  {
    assert Pace(exits[i], exits[j], j - i);
    DebtBounded(exits[i].attempt);
    DebtBounded(exits[j].attempt);
  }

  /** The times of the RUNNING events. */
  function RunTimes(events: seq<StateEvent>): seq<real> {
    if events == [] then []
    else
      var n := |events| - 1;
      RunTimes(events[..n]) + if events[n].next == RUNNING then [events[n].at] else []
  }

  /** Event `k` comes after four RUNNING events, the earliest of them at most
      five minutes older than time `f`. */
  ghost predicate FourRunsBefore(events: seq<StateEvent>, k: nat, f: real)
    requires k < |events|
  {
    var rs := RunTimes(events[..k]);
    |rs| >= 4 && rs[|rs| - 4] >= f - 300.0
  }

  /** For each FAILED_OPEN, the failure that opened the breaker is on record; it
      was met when that event was sent, or when the event before it was, which
      announced it. Four runs lie in the five minutes before it. */
  ghost predicate OpensJustified(events: seq<StateEvent>, openings: map<nat, real>) {
    forall k :: 0 <= k < |events| && events[k].next == FAILED_OPEN ==>
      && k in openings && k >= 1
      && (openings[k] == events[k].at || openings[k] == events[k - 1].at)
      && FourRunsBefore(events, k, openings[k])
  }

  ghost predicate EventTimesOk(w: Worker, now: real) {
    && RunTimes(w.events) == w.runs
    && (w.events != [] ==> w.events[|w.events| - 1].at <= now)
    && (w.point.Emitting? && w.point.resume.ApplyVerdict? && w.exits != [] && w.events != [] ==>
          w.events[|w.events| - 1].at == w.exits[|w.exits| - 1].at)
    && (w.point.Emitting? && w.point.resume.AfterVerdict? && w.exits != [] && w.events != [] ==>
          (|w.events| - 1, w.exits[|w.exits| - 1].at) in w.openings.Items)
    && OpensJustified(w.events, w.openings)
  }

  lemma RunTimesAppend(events: seq<StateEvent>, e: StateEvent)
    ensures RunTimes(events + [e]) == RunTimes(events) + if e.next == RUNNING then [e.at] else []
  {
    assert (events + [e])[..|events|] == events;
  }

  lemma OpensAppend(events: seq<StateEvent>, openings: map<nat, real>, e: StateEvent, f: real)
    requires OpensJustified(events, openings)
    requires e.next == FAILED_OPEN ==>
      && events != [] && (f == e.at || f == events[|events| - 1].at)
      && FourRunsBefore(events + [e], |events|, f)
    ensures OpensJustified(events + [e], if e.next == FAILED_OPEN then openings[|events| := f] else openings)
  {
    var ext := events + [e];
    forall k | 0 <= k < |events| && ext[k].next == FAILED_OPEN
      ensures FourRunsBefore(ext, k, openings[k])
    {
      assert FourRunsBefore(events, k, openings[k]);
      assert ext[..k] == events[..k];
    }
  }

  /** Opening needs thirty failures in one window, hence four runs in it. */
  lemma OpenedNeedsFourRuns(exits: seq<Exit>, runs: seq<real>, now: real)
    requires PaceOk(exits) && RunsOk(runs, exits, now) && Opened(exits)
    ensures |runs| >= 4 && runs[|runs| - 4] >= exits[|exits| - 1].at - 300.0
  {
    var i, j := |exits| - 30, |exits| - 1;
    PaceInWindow(exits, i, j);
    assert exits[j].runsBefore <= |runs|;
    assert exits[i].runsBefore <= |runs| - 4;
    assert exits[i].at <= runs[|runs| - 4];
  }

  /** Between `w` and `r` either no state event was sent, or one was, at
      `now`; it is noted if it enters RUNNING, announces a failure just
      recorded, or opens the breaker. */
  ghost predicate Sends(w: Worker, r: Worker, now: real) {
    if r.events == w.events then
      && r.runs == w.runs && r.openings == w.openings
      && (r.point.Emitting? && (r.point.resume.ApplyVerdict? || r.point.resume.AfterVerdict?) ==>
            r.point == w.point && (r.exits == w.exits || r.exits == []))
    else
      && |r.events| == |w.events| + 1
      && var e := r.events[|w.events|];
      && r.events == w.events + [e] && e.at == now
      && r.runs == w.runs + (if e.next == RUNNING then [now] else [])
      && (r.point.Emitting? && r.point.resume.ApplyVerdict? && r.exits != [] ==>
            r.exits[|r.exits| - 1].at == now)
      && r.openings == (if e.next == FAILED_OPEN && r.exits != []
                        then w.openings[|w.events| := r.exits[|r.exits| - 1].at] else w.openings)
      && (r.point.Emitting? && r.point.resume.AfterVerdict? ==> e.next == FAILED_OPEN)
      && (e.next == FAILED_OPEN ==>
            && r.point.Emitting? && r.point.resume.AfterVerdict? && r.exits != []
            && (r.exits[|r.exits| - 1].at == now
                || (r.exits == w.exits && w.point.Emitting? && w.point.resume.ApplyVerdict?)))
  }

  lemma DeliveredSends(w: Worker, now: real, rnd: real)
    requires LocalOk(w, now) && w.point.Emitting? && 0.0 <= rnd < 1.0
    ensures Sends(w, Step(w, Delivered(rnd), now), now)
  {
    match w.point.resume {
      case EnterLoop => LeaveSends(w, w.(state := w.point.next), now, rnd);
      case ApplyVerdict(v) =>
        assert w.point.next == RECONNECTING && w.exits != [];
        VerdictSends(w, w.(state := RECONNECTING), v, now, rnd);
      case AfterVerdict => assert w.point.next == FAILED_OPEN;
      case FinishStop => assert w.point.next == STOPPING;
      case Finish =>
    }
  }

  lemma LeaveSends(w: Worker, w0: Worker, now: real, rnd: real)
    requires w0 == w.(state := w0.state) && w0.state != IDLE && w0.state != STOPPING
    requires w.point.Emitting? ==> !w.point.resume.ApplyVerdict?
    ensures Sends(w, Continue(w0, EnterLoop, now, rnd), now)
  {
    var r := Continue(w0, EnterLoop, now, rnd);
    if w.stopRequested {
      assert r == Emit(w0, STOPPING, FinishStop, now);
      assert r.events[|w.events|].next == STOPPING;
    }
  }

  lemma VerdictSends(w: Worker, w0: Worker, v: Verdict, now: real, rnd: real)
    requires w0.state == RECONNECTING && w0.exits != [] && w0.events == w.events && w0.runs == w.runs
    requires w0.openings == w.openings
    requires w0.exits[|w0.exits| - 1].at == now
             || (w0.exits == w.exits && w.point.Emitting? && w.point.resume.ApplyVerdict?)
    ensures Sends(w, Continue(w0, ApplyVerdict(v), now, rnd), now)
  {
    var r := Continue(w0, ApplyVerdict(v), now, rnd);
    if v.OPEN? {
      assert r == Emit(Opening(w0), FAILED_OPEN, AfterVerdict, now);
    } else {
      assert r == BackOff(w0, now, rnd);
    }
  }

  lemma SpawnEndsSends(w: Worker, now: real, rnd: real)
    requires LocalOk(w, now) && w.point.Spawned? && 0.0 <= rnd < 1.0
    ensures Sends(w, AfterSpawn(w, now, rnd), now)
  {
    if w.stopRequested {
      LeaveSends(w, w, now, rnd);
    } else {
      var b := EvictOld(POLICY, AfterFailure(POLICY, w.breaker, now), now);
      var v := VerdictOf(POLICY, b);
      var w0 := w.(breaker := b, exits := w.exits + [Exit(now, w.attempt, |w.runs|)]);
      if w.state == RECONNECTING {
        VerdictSends(w, w0, v, now, rnd);
      } else {
        assert AfterSpawn(w, now, rnd) == Emit(w0, RECONNECTING, ApplyVerdict(v), now);
      }
    }
  }

  lemma FrameSends(w: Worker, now: real)
    requires LocalOk(w, now) && w.point.Spawned?
    ensures Sends(w, AfterFrame(w, now), now)
  {
    hide EventsOk, OwedOk;
  }

  lemma LaunchSends(w: Worker, now: real)
    requires LocalOk(w, now) && w.point.Fresh?
    ensures Sends(w, Step(w, Launch, now), now)
  {
  }

  lemma WakeSends(w: Worker, a: Action, now: real)
    requires LocalOk(w, now) && Enabled(w, a, now) && (a.WakeReset? || a.WakeSleep?)
    ensures Sends(w, Step(w, a, now), now)
  {
    if a.WakeSleep? || w.stopRequested {
      LeaveSends(w, w, now, 0.0);
    }
  }

  lemma StepSends(w: Worker, a: Action, now: real)
    requires LocalOk(w, now) && Enabled(w, a, now)
    ensures Sends(w, Step(w, a, now), now)
  {
    match a {
      case Launch => LaunchSends(w, now);
      case Delivered(rnd) => DeliveredSends(w, now, rnd);
      case Frame => FrameSends(w, now);
      case SpawnEnds(rnd) => SpawnEndsSends(w, now, rnd);
      case WakeReset => WakeSends(w, a, now);
      case WakeSleep => WakeSends(w, a, now);
      case _ =>
    }
  }

  /** The runs that a worker about to announce FAILED_OPEN has behind it. */
  ghost predicate OpeningHasRuns(r: Worker) {
    r.point.Emitting? && r.point.resume.AfterVerdict? && r.exits != [] ==>
      |r.runs| >= 4 && r.runs[|r.runs| - 4] >= r.exits[|r.exits| - 1].at - 300.0
  }

  lemma SendKeepsEventTimes(w: Worker, r: Worker, before: real, now: real)
    requires EventTimesOk(w, before) && before <= now && Sends(w, r, now)
    requires EventsOk(w) && EventsOk(r) && OpeningHasRuns(r)
    ensures EventTimesOk(r, now)
  {
    hide OpensJustified, RunTimes;
    if r.events != w.events {
      var n := |w.events|;
      var e := r.events[n];
      RunTimesAppend(w.events, e);
      if e.next == FAILED_OPEN {
        assert n > 0 by {
          assert LegalMove(r.events[n].previous, r.events[n].next);
        }
        assert r.events[..n] == w.events;
        assert w.runs == r.runs;
      }
      OpensAppend(w.events, w.openings, e, if r.exits == [] then 0.0 else r.exits[|r.exits| - 1].at);
    }
  }

  lemma InvHasRuns(w: Worker, now: real)
    requires Inv(w, now)
    ensures OpeningHasRuns(w)
  {
    if w.point.Emitting? && w.point.resume.AfterVerdict? && w.exits != [] {
      OpenedNeedsFourRuns(w.exits, w.runs, now);
    }
  }

  lemma StepKeepsEventTimes(w: Worker, before: real, a: Action, now: real)
    requires Inv(w, before) && EventTimesOk(w, before) && before <= now && Enabled(w, a, now)
    ensures EventTimesOk(Step(w, a, now), now)
  {
    var r := Step(w, a, now);
    assert Inv(w, now) by { LaterKeepsInv(w, before, now); }
    assert Sends(w, r, now) by { StepSends(w, a, now); }
    assert Inv(r, now) by { StepKeepsInv(w, before, a, now); }
    InvHasRuns(r, now);
    SendKeepsEventTimes(w, r, before, now);
  }

  lemma {:induction false} RunKeepsEventTimes(script: seq<Timed>)
    ensures RunScript(script).Some? ==> EventTimesOk(RunScript(script).value.0, RunScript(script).value.1)
  {
    if script != [] && RunScript(script).Some? {
      RunKeepsEventTimes(script[..|script| - 1]);
      RunKeepsInv(script[..|script| - 1]);
      var last := script[|script| - 1];
      var (w, now) := RunScript(script[..|script| - 1]).value;
      StepKeepsEventTimes(w, now, last.act, last.at);
    }
  }

  /** Every run: each FAILED_OPEN the worker announces comes after at least
      four announcements of RUNNING, all within the five minutes before the
      failure that opened the breaker. A worker that never runs is never failed
      open, however long the outage. */
  lemma FailedOpenNeedsFourRuns(w: Worker, now: real)
    requires Reachable(w, now)
    ensures OpensJustified(w.events, w.openings) && RunTimes(w.events) == w.runs
    ensures w.point.Emitting? && w.point.next == FAILED_OPEN ==>
              && w.exits != [] && Opened(w.exits)
              && (|w.events| - 1, w.exits[|w.exits| - 1].at) in w.openings.Items
              && |w.runs| >= 4 && w.runs[|w.runs| - 4] >= w.exits[|w.exits| - 1].at - 300.0
    ensures w.runs == [] ==> forall k :: 0 <= k < |w.events| ==> w.events[k].next != FAILED_OPEN
    ensures w.state == FAILED_OPEN ==> |w.runs| >= 4
  {
    var script :| RunScript(script) == Some((w, now));
    RunKeepsEventTimes(script);
    RunKeepsInv(script);
    InvHasRuns(w, now);
    forall k | 0 <= k < |w.events| && w.events[k].next == FAILED_OPEN
      ensures |w.runs| >= 4
    {
      assert FourRunsBefore(w.events, k, w.openings[k]);
      RunTimesPrefix(w.events, k);
    }
    if w.state == FAILED_OPEN {
      StateWasAnnounced(w);
    }
  }

  lemma {:induction false} RunTimesPrefix(events: seq<StateEvent>, k: nat)
    requires k <= |events|
    ensures |RunTimes(events[..k])| <= |RunTimes(events)|
    decreases |events|
  {
    if k < |events| {
      RunTimesPrefix(events[..|events| - 1], k);
      assert events[..|events| - 1][..k] == events[..k];
    } else {
      assert events[..k] == events;
    }
  }

  lemma StateWasAnnounced(w: Worker)
    requires EventsOk(w) && w.state != IDLE
    ensures exists k :: 0 <= k < |w.events| && w.events[k].next == w.state
  {
    var last := |w.events| - 1;
    if w.point.Emitting? {
      assert last > 0 && w.events[last - 1].next == w.state;
    } else {
      assert w.events[last].next == w.state;
    }
  }
}
