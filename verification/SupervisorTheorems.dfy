/** What the supervisor keeps over every sequence of starts, stops, enables,
    disables, publish signals, failures, crashes and boots. */
module SupervisorTheorems {
  import opened Options
  import opened RunStates
  import opened SupervisorModel

  // ---------------------------------------------------------------------
  // The invariant
  // ---------------------------------------------------------------------

  lemma TryStartKeeps(s: Sup, p: StartPlan)
    requires BooksOk(s) && SessionsOk(s) && s.runId.None? && LegalRun(OFFLINE, s.published, STARTING)
    requires s.run == STARTING && s.workers == {} && (p.sessionId.Some? ==> p.sessionId.value !in s.rows)
    ensures
      var r := TryStart(s, p);
      && BooksOk(r.s) && SessionsOk(r.s) && LegalRun(OFFLINE, r.s.published, r.s.run)
      && (r.s.run == STARTING || r.s.run == ARMED)
      && (!r.raised ==> r.s.run == ARMED && r.s.runId.Some?)
  {
    if p.sessionId.Some? {
      var id := p.sessionId.value;
      OpenKeepsSessions(s, id, p.now);
      var begun := s.(runId := Some(id), rows := s.rows[id := RunRow(p.now, None, None)]);
      if p.pairs.Some? {
        var indexed := Loaded(begun, p.pairs.value);
        LoadedKeepsBooks(begun, p.pairs.value);
        SpawnPairsKeepsBooks(indexed, p.pairs.value, p.fates);
        var spawned := SpawnPairs(indexed, p.pairs.value, p.fates);
        if !spawned.raised {
          SetRunKeeps(spawned.s, WORKERS_SPAWNED);
        }
      }
    }
  }

  lemma StartKeepsInv(s: Sup, p: StartPlan)
    requires Inv(s) && Possible(s, DoStart(p))
    ensures Inv(Start(s, p).s)
  {
    if s.run == OFFLINE {
      var starting := SetRun(s, START_REQUESTED);
      assert LegalRun(OFFLINE, starting.published, STARTING) by { SetRunKeeps(s, START_REQUESTED); }
      var tried := TryStart(starting, p);
      assert BooksOk(starting) && SessionsOk(starting);
      TryStartKeeps(starting, p);
      StartedKeepsInv(tried, p);
      StartShape(s, p);
    }
  }

  lemma StartShape(s: Sup, p: StartPlan)
    requires s.run == OFFLINE
    ensures
      var tried := TryStart(SetRun(s, START_REQUESTED), p);
      tried.s.run == STARTING || tried.s.run == ARMED ==>
        Start(s, p).s ==
          if tried.raised
          then CloseSession(SetRun(TearDown(tried.s, tried.s.workers), UNRECOVERABLE_FAILED), "error", p.now, p.closeOk)
          else tried.s
  {
  }

  lemma StartedKeepsInv(tried: Outcome, p: StartPlan)
    requires BooksOk(tried.s) && SessionsOk(tried.s) && LegalRun(OFFLINE, tried.s.published, tried.s.run)
    requires tried.s.run == STARTING || tried.s.run == ARMED
    requires !tried.raised ==> tried.s.run == ARMED && tried.s.runId.Some?
    ensures
      var down := TearDown(tried.s, tried.s.workers);
      Inv(if tried.raised then CloseSession(SetRun(down, UNRECOVERABLE_FAILED), "error", p.now, p.closeOk) else tried.s)
  {
    if tried.raised {
      FailedKeepsInv(tried.s, p);
    }
  }

  lemma FailedKeepsInv(s: Sup, p: StartPlan)
    requires BooksOk(s) && SessionsOk(s) && LegalRun(OFFLINE, s.published, s.run)
    requires s.run == STARTING || s.run == ARMED
    ensures
      var down := TearDown(s, s.workers);
      Inv(CloseSession(SetRun(down, UNRECOVERABLE_FAILED), "error", p.now, p.closeOk))
  {
    TearDownKeepsBooks(s, s.workers);
    var down := TearDown(s, s.workers);
    SetRunKeeps(down, UNRECOVERABLE_FAILED);
    CloseKeepsSessions(SetRun(down, UNRECOVERABLE_FAILED), "error", p.now, p.closeOk);
  }

  /** What a stop of an active run comes down to. */
  lemma StopShape(s: Sup, p: StopPlan)
    requires s.run == ARMED || s.run == LIVE
    ensures
      var stopping := SetRun(s, STOP_REQUESTED);
      var wiped := Wiped(TearDown(stopping, stopping.workers), p.wipeOk);
      StopRun(s, p) == SetRun(CloseSession(wiped, p.reason, p.now, p.closeOk), WORKERS_DRAINED)
  {
    hide TearDown, CloseSession, Wiped;
  }

  lemma StopKeepsInv(s: Sup, p: StopPlan)
    requires Inv(s)
    ensures Inv(StopRun(s, p))
  {
    hide BooksAgree, SessionsAgree, LegalRun, StopRun, CloseSession;
    if s.run == OFFLINE || s.run == ERROR {
      assert StopRun(s, p) == s by { StopOfInactive(s, p); }
    } else {
      StopShape(s, p);
      SetRunKeeps(s, STOP_REQUESTED);
      var stopping := SetRun(s, STOP_REQUESTED);
      TearDownKeepsBooks(stopping, stopping.workers);
      DrainedKeepsInv(Wiped(TearDown(stopping, stopping.workers), p.wipeOk), p);
    }
  }

  lemma StopOfInactive(s: Sup, p: StopPlan)
    requires s.run == OFFLINE || s.run == ERROR
    ensures StopRun(s, p) == s
  {
  }

  lemma DrainedKeepsInv(s: Sup, p: StopPlan)
    requires BooksOk(s) && SessionsOk(s) && s.run == STOPPING && s.workers == {}
    requires LegalRun(OFFLINE, s.published, STOPPING)
    ensures Inv(SetRun(CloseSession(s, p.reason, p.now, p.closeOk), WORKERS_DRAINED))
  {
    CloseKeepsSessions(s, p.reason, p.now, p.closeOk);
    SetRunKeeps(CloseSession(s, p.reason, p.now, p.closeOk), WORKERS_DRAINED);
  }

  lemma EnableKeepsInv(s: Sup, found: Option<Pair>, fates: Fates)
    requires Inv(s)
    ensures Inv(Enable(s, found, fates).s)
  {
    if MayEnable(s) && found.Some? {
      CachedKeepsBooks(s, found.value.target);
      SpawnPairKeepsBooks(Cached(s, found.value.target), found.value, fates);
    }
  }

  lemma StepKeepsInv(s: Sup, step: Step)
    requires Inv(s) && Possible(s, step)
    ensures Inv(Do(s, step))
  {
    match step {
      case DoStart(plan) => StartKeepsInv(s, plan);
      case DoStop(stop) => StopKeepsInv(s, stop);
      case DoEnable(found, fates) => EnableKeepsInv(s, found, fates);
      case DoDisable(target) => TearDownKeepsBooks(s, IndexOf(s, target) * s.workers);
      case DoPublishBegan => if s.run == ARMED { SetRunKeeps(s, OBS_PUBLISH_BEGAN); }
      case DoPublishEnded => if s.run == LIVE { SetRunKeeps(s, OBS_PUBLISH_ENDED); }
      case DoStore(_) =>
      case CrashAndBoot => RecoveryClosesAll(s.rows);
    }
  }

  /** What a sequence of steps leads to, from a boot on any old rows and
      credentials. */
  ghost function RunSteps(rows: map<string, RunRow>, creds: set<string>, steps: seq<Step>): Option<Sup>
    decreases |steps|
  {
    if steps == [] then Some(Boot(rows, creds))
    else
      var n := |steps| - 1;
      match RunSteps(rows, creds, steps[..n])
      case None => None
      case Some(s) => if Possible(s, steps[n]) then Some(Do(s, steps[n])) else None
  }

  /** Over every sequence of steps: the worker, secret and index books agree,
      nothing is registered that no live worker owns, no worker outlives the
      run, the open rows are exactly the current session and those whose closing
      write failed, and the published changes are one legal path. */
  lemma {:induction false} BooksAlwaysAgree(rows: map<string, RunRow>, creds: set<string>, steps: seq<Step>)
    ensures RunSteps(rows, creds, steps).Some? ==> Inv(RunSteps(rows, creds, steps).value)
    decreases |steps|
  {
    if steps == [] {
      RecoveryClosesAll(rows);
    } else {
      BooksAlwaysAgree(rows, creds, steps[..|steps| - 1]);
      var before := RunSteps(rows, creds, steps[..|steps| - 1]);
      if before.Some? && Possible(before.value, steps[|steps| - 1]) {
        StepKeepsInv(before.value, steps[|steps| - 1]);
      }
    }
  }

  // ---------------------------------------------------------------------
  // Run sessions
  // ---------------------------------------------------------------------

  predicate ClosesSucceed(step: Step) {
    match step
    case DoStart(plan) => plan.closeOk
    case DoStop(stop) => stop.closeOk
    case _ => true
  }

  /** What the try block of a start does to the run sessions. */
  lemma TryStartSessions(s: Sup, p: StartPlan)
    requires s.run == STARTING && s.workers == {} && s.secrets == map[] && s.registry == {}
    ensures
      var r := TryStart(s, p).s;
      && r.lost == s.lost && r.creds == s.creds
      && (if p.sessionId.None? then r.rows == s.rows && r.runId == s.runId
          else r.rows == s.rows[p.sessionId.value := RunRow(p.now, None, None)] && r.runId == p.sessionId)
  {
    if p.sessionId.Some? && p.pairs.Some? {
      var id := p.sessionId.value;
      var begun := s.(runId := Some(id), rows := s.rows[id := RunRow(p.now, None, None)]);
      var indexed := Loaded(begun, p.pairs.value);
      LoadedKeepsBooks(begun, p.pairs.value);
      SpawnPairsKeepsBooks(indexed, p.pairs.value, p.fates);
    }
  }

  lemma StartSessions(s: Sup, p: StartPlan)
    requires Inv(s) && Possible(s, DoStart(p))
    ensures
      var r := Start(s, p).s;
      && (p.closeOk ==> r.lost == s.lost)
      && forall id :: id in s.rows ==> id in r.rows && r.rows[id] == s.rows[id]
  {
    if s.run == OFFLINE {
      assert s.secrets.Keys == {} && s.registry == {};
      TryStartSessions(SetRun(s, START_REQUESTED), p);
      StartRows(s, p);
      hide TryStart, Start, BooksAgree, SessionsAgree, LegalRun;
    }
  }

  /** A start touches no row but the one its try block opened. */
  lemma StartRows(s: Sup, p: StartPlan)
    requires s.run == OFFLINE
    ensures
      var tried, r := TryStart(SetRun(s, START_REQUESTED), p).s, Start(s, p).s;
      && (p.closeOk ==> r.lost == tried.lost)
      && forall id :: id in tried.rows && tried.runId != Some(id) ==> id in r.rows && r.rows[id] == tried.rows[id]
  {
    hide TryStart, TearDown;
  }

  lemma EnableSessions(s: Sup, found: Option<Pair>, fates: Fates)
    requires Inv(s)
    ensures Enable(s, found, fates).s.lost == s.lost && Enable(s, found, fates).s.rows == s.rows
  {
    if MayEnable(s) && found.Some? {
      CachedKeepsBooks(s, found.value.target);
      SpawnPairKeepsBooks(Cached(s, found.value.target), found.value, fates);
    }
  }

  lemma StepKeepsNoneLost(s: Sup, step: Step)
    requires Inv(s) && Possible(s, step) && ClosesSucceed(step) && s.lost == {}
    ensures Do(s, step).lost == {}
  {
    match step {
      case DoStart(p) => StartSessions(s, p);
      case DoEnable(found, fates) => EnableSessions(s, found, fates);
      case _ =>
    }
  }

  /** As long as closing writes succeed, at most one run-session row is open in
      any sequence of starts, failed starts, stops, crashes and boots, and an
      open one is the current session. */
  lemma {:induction false} AtMostOneOpenSession(rows: map<string, RunRow>, creds: set<string>, steps: seq<Step>)
    requires forall i :: 0 <= i < |steps| ==> ClosesSucceed(steps[i])
    ensures
      var end := RunSteps(rows, creds, steps);
      end.Some? ==>
        && end.value.lost == {}
        && OpenRows(end.value.rows) == (if end.value.runId.Some? then {end.value.runId.value} else {})
    decreases |steps|
  {
    BooksAlwaysAgree(rows, creds, steps);
    if steps != [] {
      var n := |steps| - 1;
      BooksAlwaysAgree(rows, creds, steps[..n]);
      AtMostOneOpenSession(rows, creds, steps[..n]);
      var before := RunSteps(rows, creds, steps[..n]);
      if before.Some? && Possible(before.value, steps[n]) {
        StepKeepsNoneLost(before.value, steps[n]);
      }
    }
  }

  /** One failed closing write is enough to have two rows open later. */
  lemma LostCloseLeavesTwoOpen(fates: Fates)
    ensures
      var start := (id: string) => DoStart(StartPlan(Some(id), Some([]), fates, true, true, 0));
      var s := Do(Do(Do(Boot(map[], {}), start("a")), DoStop(StopPlan("user_stop", true, false, 1))), start("b"));
      OpenRows(s.rows) == {"a", "b"} && s.runId == Some("b") && s.run == ARMED
  {
    var s1 := Do(Boot(map[], {}), DoStart(StartPlan(Some("a"), Some([]), fates, true, true, 0)));
    assert s1.run == ARMED && s1.rows == map["a" := RunRow(0, None, None)] && s1.runId == Some("a");
    var s2 := Do(s1, DoStop(StopPlan("user_stop", true, false, 1)));
    assert s2.run == OFFLINE && s2.rows == s1.rows && s2.lost == {"a"};
  }

  /** A closed row never changes again, in any step, crash and boot included. */
  lemma ClosedRowsAreFinal(s: Sup, step: Step, id: string)
    requires Inv(s) && Possible(s, step) && id in s.rows && s.rows[id].endedAt.Some?
    ensures id in Do(s, step).rows && Do(s, step).rows[id] == s.rows[id]
  {
    assert id !in OpenRows(s.rows) && s.runId != Some(id);
    hide BooksAgree, SessionsAgree, LegalRun, Start, Enable, TearDown;
    match step {
      case DoStart(p) => StartSessions(s, p);
      case DoEnable(found, fates) => EnableSessions(s, found, fates);
      case _ =>
    }
  }

  /** A boot closes every open row at its start time and no other. */
  lemma BootRecovers(s: Sup, id: string)
    requires id in s.rows
    ensures
      var r := Do(s, CrashAndBoot).rows;
      && r.Keys == s.rows.Keys && OpenRows(r) == {}
      && (s.rows[id].endedAt.Some? ==> r[id] == s.rows[id])
      && (s.rows[id].endedAt.None? ==>
            r[id] == RunRow(s.rows[id].startedAt, Some(s.rows[id].startedAt), Some("control_plane_crash")))
  {
    RecoveryClosesAll(s.rows);
  }

  /** Nothing but a restart of the process leads out of ERROR. */
  lemma ErrorIsFinal(s: Sup, step: Step)
    requires s.run == ERROR
    ensures Do(s, step).run == ERROR <==> !step.CrashAndBoot?
  {
  }

  // ---------------------------------------------------------------------
  // Credentials for one run
  // ---------------------------------------------------------------------

  lemma StartKeepsCreds(s: Sup, p: StartPlan)
    requires Inv(s) && Possible(s, DoStart(p))
    ensures Start(s, p).s.creds == s.creds
  {
    if s.run == OFFLINE {
      assert s.secrets.Keys == {} && s.registry == {};
      TryStartSessions(SetRun(s, START_REQUESTED), p);
      StartCreds(s, p);
    }
  }

  lemma StartCreds(s: Sup, p: StartPlan)
    requires s.run == OFFLINE
    ensures Start(s, p).s.creds == TryStart(SetRun(s, START_REQUESTED), p).s.creds
  {
    hide TryStart;
  }

  lemma EnableKeepsCreds(s: Sup, found: Option<Pair>, fates: Fates)
    requires Inv(s)
    ensures Enable(s, found, fates).s.creds == s.creds
  {
    if MayEnable(s) && found.Some? {
      CachedKeepsBooks(s, found.value.target);
      SpawnPairKeepsBooks(Cached(s, found.value.target), found.value, fates);
    }
  }

  /** A stored credential is deleted in one case, exactly: a stop of an active
      run, whose wipe succeeds, and the target is cached with a credential for
      one run only. */
  lemma OnlyStopsWipe(s: Sup, step: Step, target: string)
    requires Inv(s) && Possible(s, step) && target in s.creds
    ensures target !in Do(s, step).creds <==>
            step.DoStop? && (s.run == ARMED || s.run == LIVE) && step.stop.wipeOk && target in SingleUse(s.targets)
  {
    match step {
      case DoStart(p) => StartKeepsCreds(s, p);
      case DoEnable(found, fates) => EnableKeepsCreds(s, found, fates);
      case _ =>
    }
  }

  /** So a start that fails late closes its session row and leaves the credential
      behind, and no step short of a restart of the process deletes it. */
  lemma FailedStartKeepsKey(s: Sup, id: string, pairs: seq<Pair>, fates: Fates, now: int, target: string)
    requires Inv(s) && s.run == OFFLINE && id !in s.rows && target in s.creds
    ensures
      var r := Do(s, DoStart(StartPlan(Some(id), Some(pairs), fates, false, true, now)));
      && r.run == ERROR && id in r.rows && r.rows[id].endedAt.Some? && target in r.creds
      && forall step: Step :: !step.CrashAndBoot? && Possible(r, step) ==> target in Do(r, step).creds
  {
    var p := StartPlan(Some(id), Some(pairs), fates, false, true, now);
    var r := Do(s, DoStart(p));
    LateFailure(s, p);
    StartKeepsInv(s, p);
    StartKeepsCreds(s, p);
    forall step: Step | !step.CrashAndBoot? && Possible(r, step) ensures target in Do(r, step).creds {
      OnlyStopsWipe(r, step, target);
    }
  }

  lemma LateFailure(s: Sup, p: StartPlan)
    requires Inv(s) && s.run == OFFLINE && p.sessionId.Some? && p.pairs.Some? && !p.auditOk && p.closeOk
    ensures
      var r := Start(s, p).s;
      r.run == ERROR && p.sessionId.value in r.rows && r.rows[p.sessionId.value].endedAt.Some?
  {
    var starting := SetRun(s, START_REQUESTED);
    assert s.secrets.Keys == {} && s.registry == {};
    TryStartSessions(starting, p);
    TryStartRaises(starting, p);
    hide TryStart, TearDown, BooksAgree, SessionsAgree, LegalRun;
  }

  lemma TryStartRaises(s: Sup, p: StartPlan)
    requires s.run == STARTING && s.workers == {} && s.secrets == map[] && s.registry == {}
    requires p.sessionId.Some? && p.pairs.Some? && !p.auditOk
    ensures TryStart(s, p).raised && (TryStart(s, p).s.run == STARTING || TryStart(s, p).s.run == ARMED)
  {
    var begun := s.(runId := p.sessionId, rows := s.rows[p.sessionId.value := RunRow(p.now, None, None)]);
    LoadedKeepsBooks(begun, p.pairs.value);
    SpawnPairsKeepsBooks(Loaded(begun, p.pairs.value), p.pairs.value, p.fates);
  }
}
