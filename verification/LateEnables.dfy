/** What becomes of the supervisor's books when `enable_target` goes on although
    the run has ended: it tests the run state, then waits for the lock, and does
    not test again (app/fanout/supervisor.py:364-380). */
module LateEnables {
  import opened Options
  import opened RunStates
  import opened SupervisorModel
  import opened SupervisorTheorems

  // ---------------------------------------------------------------------
  // The part under the lock
  // ---------------------------------------------------------------------

  /** What is found under the lock starts at least one worker, if none runs. */
  predicate Starts(found: Option<Pair>, fates: Fates) {
    && found.Some? && found.value.target.enabled
    && found.value.key.Some? && |found.value.key.value| >= MIN_SECRET_LENGTH
    && fates(WorkerId(found.value.target.id, PRIMARY)) == Spawns
  }

  lemma {:induction false} SpawnRolesGrow(s: Sup, target: string, key: string, roles: seq<Role>, fates: Fates)
    ensures
      var r := SpawnRoles(s, target, key, roles, fates).s;
      s.workers <= r.workers && SameRun(s, r)
    decreases |roles|
  {
    if roles != [] {
      var w := WorkerId(target, roles[0]);
      SpawnRolesGrow(SpawnOne(s, w, key, fates(w)).s, target, key, roles[1..], fates);
    }
  }

  lemma SpawnsExactlyIfStarts(s: Sup, found: Option<Pair>, fates: Fates)
    requires s.workers == {}
    ensures EnableLocked(s, found, fates).s.workers != {} <==> Starts(found, fates)
  {
    if found.Some? && found.value.target.enabled && found.value.key.Some? {
      var t, key := found.value.target, found.value.key.value;
      var first := SpawnOne(Cached(s, t), WorkerId(t.id, PRIMARY), key, fates(WorkerId(t.id, PRIMARY)));
      assert Roles(t)[0] == PRIMARY;
      SpawnRolesGrow(first.s, t.id, key, Roles(t)[1..], fates);
    }
  }

  /** The part under the lock, in whatever state it is reached, keeps the books
      and the sessions. It keeps the whole invariant if and only if the run is
      active then, or what it finds starts no worker. */
  lemma EnableLockedKeepsInvIff(s: Sup, found: Option<Pair>, fates: Fates)
    requires Inv(s)
    ensures
      var r := EnableLocked(s, found, fates).s;
      && BooksOk(r) && SessionsOk(r)
      && (Inv(r) <==> MayEnable(s) || !Starts(found, fates))
  {
    if found.Some? {
      CachedKeepsBooks(s, found.value.target);
      SpawnPairKeepsBooks(Cached(s, found.value.target), found.value, fates);
    }
    if !MayEnable(s) {
      SpawnsExactlyIfStarts(s, found, fates);
    }
  }

  ghost predicate AlwaysKeeps(s: Sup) {
    forall found, fates :: Inv(EnableLocked(s, found, fates).s)
  }

  /** Whatever may be found, the invariant is kept exactly in the states that
      pass the test: making it again under the lock is all that is missing. */
  lemma TestUnderLockSuffices(s: Sup)
    requires Inv(s)
    ensures AlwaysKeeps(s) <==> MayEnable(s)
  {
    forall found, fates ensures Inv(EnableLocked(s, found, fates).s) <==> MayEnable(s) || !Starts(found, fates) {
      EnableLockedKeepsInvIff(s, found, fates);
    }
    var fates: Fates := (w: WorkerId) => Spawns;
    var found := Some(Pair(Target("t", true, false, false, false), Some("a secret key")));
    assert Starts(found, fates);
    if !MayEnable(s) {
      assert !Inv(EnableLocked(s, found, fates).s);
    }
  }

  // ---------------------------------------------------------------------
  // Runs with late enables
  // ---------------------------------------------------------------------

  /** A step, or the part under the lock of an enable that was let in earlier. */
  datatype LateStep = Timely(step: Step) | Late(found: Option<Pair>, fates: Fates)

  function DoLate(s: Sup, step: LateStep): Sup {
    match step
    case Timely(t) => Do(s, t)
    case Late(found, fates) => EnableLocked(s, found, fates).s
  }

  predicate PossibleLate(s: Sup, step: LateStep) {
    step.Timely? ==> Possible(s, step.step)
  }

  /** What is left of the books: a secret for each worker and no other, an index
      that names live workers of the right target but perhaps not all, and nothing
      registered that no live worker owns. */
  ghost predicate LooseBooks(s: Sup) {
    && s.secrets.Keys == s.workers
    && (forall t, w :: t in s.index && w in s.index[t] ==> w in s.workers && w.targetId == t)
    && s.registry <= SecretsOf(s.secrets, s.workers)
  }

  ghost predicate LooseInv(s: Sup) {
    && LooseBooks(s) && SessionsOk(s)
    && (s.run == OFFLINE || s.run == ERROR ==> s.runId.None?)
    && (s.run == ARMED || s.run == LIVE ==> s.runId.Some?)
    && s.run != STARTING && s.run != STOPPING
    && LegalRun(OFFLINE, s.published, s.run)
  }

  lemma SpawnOneKeepsLoose(s: Sup, w: WorkerId, key: string, fate: Fate)
    requires LooseBooks(s)
    ensures LooseBooks(SpawnOne(s, w, key, fate).s) && SameRun(s, SpawnOne(s, w, key, fate).s)
  {
    hide SecretsOf;
    if w !in s.workers && fate == Spawns && |key| >= MIN_SECRET_LENGTH {
      OneMoreSecret(s.secrets, s.workers, w, key);
    } else if w !in s.workers && fate == SpawnFails {
      assert s.secrets - {w} == s.secrets;
    }
  }

  lemma {:induction false} SpawnRolesKeepsLoose(s: Sup, target: string, key: string, roles: seq<Role>, fates: Fates)
    requires LooseBooks(s)
    ensures
      var r := SpawnRoles(s, target, key, roles, fates).s;
      LooseBooks(r) && SameRun(s, r)
    decreases |roles|
  {
    hide LooseBooks, SpawnOne;
    if roles != [] {
      var w := WorkerId(target, roles[0]);
      SpawnOneKeepsLoose(s, w, key, fates(w));
      SpawnRolesKeepsLoose(SpawnOne(s, w, key, fates(w)).s, target, key, roles[1..], fates);
    }
  }

  lemma SpawnPairKeepsLoose(s: Sup, p: Pair, fates: Fates)
    requires LooseBooks(s)
    ensures LooseBooks(SpawnPair(s, p, fates).s) && SameRun(s, SpawnPair(s, p, fates).s)
  {
    hide LooseBooks, SpawnRoles;
    if p.target.enabled && p.key.Some? {
      SpawnRolesKeepsLoose(s, p.target.id, p.key.value, Roles(p.target), fates);
    }
  }

  lemma {:induction false} SpawnPairsKeepsLoose(s: Sup, pairs: seq<Pair>, fates: Fates)
    requires LooseBooks(s)
    ensures LooseBooks(SpawnPairs(s, pairs, fates).s) && SameRun(s, SpawnPairs(s, pairs, fates).s)
    decreases |pairs|
  {
    hide LooseBooks, SpawnPair;
    if pairs != [] {
      SpawnPairKeepsLoose(s, pairs[0], fates);
      SpawnPairsKeepsLoose(SpawnPair(s, pairs[0], fates).s, pairs[1..], fates);
    }
  }

  lemma TearDownKeepsLoose(s: Sup, gone: set<WorkerId>)
    requires LooseBooks(s)
    ensures LooseBooks(TearDown(s, gone)) && SameRun(s, TearDown(s, gone))
  {
    var r := TearDown(s, gone);
    forall k | k in r.registry ensures k in SecretsOf(r.secrets, r.workers) {
      var v :| v in s.workers && v in s.secrets && s.secrets[v] == k;
      assert v !in gone;
      assert r.secrets[v] == k;
    }
  }

  /** What the books say does not depend on the run. */
  lemma SameBooksLoose(s: Sup, r: Sup)
    requires LooseBooks(s)
    requires r.workers == s.workers && r.secrets == s.secrets && r.registry == s.registry
    requires r.index == s.index || (forall t :: t in r.index ==> r.index[t] == {})
             || (exists t :: r.index == s.index[t := IndexOf(s, t)])
    ensures LooseBooks(r)
  {
  }

  /** The try block of a start, with workers left over from before. */
  lemma TryStartKeepsLoose(s: Sup, p: StartPlan)
    requires LooseBooks(s) && SessionsOk(s) && s.runId.None? && LegalRun(OFFLINE, s.published, STARTING)
    requires s.run == STARTING && (p.sessionId.Some? ==> p.sessionId.value !in s.rows)
    ensures
      var r := TryStart(s, p);
      && LooseBooks(r.s) && SessionsOk(r.s) && LegalRun(OFFLINE, r.s.published, r.s.run)
      && (r.s.run == STARTING || r.s.run == ARMED)
      && (!r.raised ==> r.s.run == ARMED && r.s.runId.Some?)
  {
    hide LooseBooks, SessionsAgree, LegalRun;
    if p.sessionId.Some? {
      var id := p.sessionId.value;
      OpenKeepsSessions(s, id, p.now);
      var begun := s.(runId := Some(id), rows := s.rows[id := RunRow(p.now, None, None)]);
      SameBooksLoose(s, begun);
      if p.pairs.Some? {
        var loaded := Loaded(begun, p.pairs.value);
        SameBooksLoose(begun, loaded);
        SpawnPairsKeepsLoose(loaded, p.pairs.value, p.fates);
        var spawned := SpawnPairs(loaded, p.pairs.value, p.fates);
        if !spawned.raised {
          SetRunKeeps(spawned.s, WORKERS_SPAWNED);
          SameBooksLoose(spawned.s, SetRun(spawned.s, WORKERS_SPAWNED));
        }
      }
    }
  }

  lemma StartKeepsLoose(s: Sup, p: StartPlan)
    requires LooseInv(s) && Possible(s, DoStart(p))
    ensures LooseInv(Start(s, p).s)
  {
    hide LooseBooks, SessionsAgree, LegalRun, TryStart;
    if s.run == OFFLINE {
      var starting := SetRun(s, START_REQUESTED);
      SetRunKeeps(s, START_REQUESTED);
      SameBooksLoose(s, starting);
      TryStartKeepsLoose(starting, p);
      StartShape(s, p);
      var tried := TryStart(starting, p);
      if tried.raised {
        FailedKeepsLoose(tried.s, p);
      }
    }
  }

  lemma FailedKeepsLoose(s: Sup, p: StartPlan)
    requires LooseBooks(s) && SessionsOk(s) && LegalRun(OFFLINE, s.published, s.run)
    requires s.run == STARTING || s.run == ARMED
    ensures LooseInv(CloseSession(SetRun(TearDown(s, s.workers), UNRECOVERABLE_FAILED), "error", p.now, p.closeOk))
  {
    hide LooseBooks, SessionsAgree, LegalRun, TearDown;
    TearDownKeepsLoose(s, s.workers);
    var down := TearDown(s, s.workers);
    SetRunKeeps(down, UNRECOVERABLE_FAILED);
    var failed := SetRun(down, UNRECOVERABLE_FAILED);
    CloseKeepsSessions(failed, "error", p.now, p.closeOk);
    SameBooksLoose(down, CloseSession(failed, "error", p.now, p.closeOk));
  }

  /** A stop of an active run clears away every worker, indexed or not, and so
      restores the whole invariant. */
  lemma StopTidies(s: Sup, p: StopPlan)
    requires LooseInv(s) && (s.run == ARMED || s.run == LIVE)
    ensures Inv(StopRun(s, p)) && StopRun(s, p).workers == {}
  {
    hide SessionsAgree, LegalRun, StopRun;
    StopShape(s, p);
    SetRunKeeps(s, STOP_REQUESTED);
    var stopping := SetRun(s, STOP_REQUESTED);
    TearDownKeepsLoose(stopping, stopping.workers);
    var down := TearDown(stopping, stopping.workers);
    assert down.workers == {} && BooksOk(down);
    hide LooseBooks, TearDown, BooksAgree;
    DrainedKeepsInv(Wiped(down, p.wipeOk), p);
  }

  lemma StopKeepsLoose(s: Sup, p: StopPlan)
    requires LooseInv(s)
    ensures LooseInv(StopRun(s, p))
  {
    hide SessionsAgree, LegalRun, StopRun;
    if s.run == ARMED || s.run == LIVE {
      StopTidies(s, p);
    } else {
      StopOfInactive(s, p);
    }
  }

  lemma StepKeepsLoose(s: Sup, step: Step)
    requires LooseInv(s) && Possible(s, step)
    ensures LooseInv(Do(s, step))
  {
    hide SessionsAgree, LegalRun, LooseBooks, Start, StopRun, EnableLocked, TearDown;
    match step {
      case DoStart(plan) => StartKeepsLoose(s, plan);
      case DoStop(stop) => StopKeepsLoose(s, stop);
      case DoEnable(found, fates) => if MayEnable(s) { LateKeepsLoose(s, found, fates); }
      case DoDisable(target) => TearDownKeepsLoose(s, IndexOf(s, target) * s.workers);
      case DoPublishBegan =>
        if s.run == ARMED {
          SetRunKeeps(s, OBS_PUBLISH_BEGAN);
          SameBooksLoose(s, PublishBegan(s));
        }
      case DoPublishEnded =>
        if s.run == LIVE {
          SetRunKeeps(s, OBS_PUBLISH_ENDED);
          SameBooksLoose(s, PublishEnded(s));
        }
      case DoStore(_) => SameBooksLoose(s, Do(s, step));
      case CrashAndBoot => BootIsLoose(s);
    }
  }

  lemma BootIsLoose(s: Sup)
    ensures LooseInv(Do(s, CrashAndBoot))
  {
    RecoveryClosesAll(s.rows);
  }

  lemma LateKeepsLoose(s: Sup, found: Option<Pair>, fates: Fates)
    requires LooseInv(s)
    ensures LooseInv(EnableLocked(s, found, fates).s)
  {
    if found.Some? {
      hide LooseBooks, SpawnPair, SessionsAgree, LegalRun;
      SameBooksLoose(s, Cached(s, found.value.target));
      SpawnPairKeepsLoose(Cached(s, found.value.target), found.value, fates);
    }
  }

  ghost function RunLate(rows: map<string, RunRow>, creds: set<string>, steps: seq<LateStep>): Option<Sup>
    decreases |steps|
  {
    if steps == [] then Some(Boot(rows, creds))
    else
      var n := |steps| - 1;
      match RunLate(rows, creds, steps[..n])
      case None => None
      case Some(s) => if PossibleLate(s, steps[n]) then Some(DoLate(s, steps[n])) else None
  }

  /** Over every sequence of steps among which enables come late: sessions, run
      states and the published path are as ever, every worker has its secret on
      the books and nothing else is registered; and each stop of an active run
      leaves no worker and the whole invariant. */
  lemma {:induction false} LateRunsStayLoose(rows: map<string, RunRow>, creds: set<string>, steps: seq<LateStep>)
    ensures
      var end := RunLate(rows, creds, steps);
      end.Some? ==>
        && LooseInv(end.value)
        && forall p :: end.value.run == ARMED || end.value.run == LIVE ==>
             Inv(StopRun(end.value, p)) && StopRun(end.value, p).workers == {}
    decreases |steps|
  {
    hide LooseInv, Inv, Do, EnableLocked, StopRun;
    var end := RunLate(rows, creds, steps);
    if steps == [] {
      assert LooseInv(Boot(rows, creds)) by { BootIsLooseToo(rows, creds); }
    } else {
      var n := |steps| - 1;
      LateRunsStayLoose(rows, creds, steps[..n]);
      var before := RunLate(rows, creds, steps[..n]);
      if before.Some? && PossibleLate(before.value, steps[n]) {
        match steps[n] {
          case Timely(step) => StepKeepsLoose(before.value, step);
          case Late(found, fates) => LateKeepsLoose(before.value, found, fates);
        }
      }
    }
    if end.Some? {
      forall p | end.value.run == ARMED || end.value.run == LIVE
        ensures Inv(StopRun(end.value, p)) && StopRun(end.value, p).workers == {}
      {
        StopTidies(end.value, p);
      }
    }
  }

  lemma BootIsLooseToo(rows: map<string, RunRow>, creds: set<string>)
    ensures LooseInv(Boot(rows, creds))
  {
    RecoveryClosesAll(rows);
  }

  // ---------------------------------------------------------------------
  // A worker that gets away
  // ---------------------------------------------------------------------

  /** If a stop holds the lock meanwhile, the worker is started in OFFLINE, and
      another stop does not touch it. */
  lemma EnableAcrossStopLeavesWorker(s: Sup, target: Target, key: string, p: StopPlan, again: StopPlan)
    requires Inv(s) && MayEnable(s) && target.enabled && |key| >= MIN_SECRET_LENGTH
    ensures
      var fates: Fates := (w: WorkerId) => Spawns;
      var r := EnableLocked(StopRun(s, p), Some(Pair(target, Some(key))), fates).s;
      && r.run == OFFLINE && WorkerId(target.id, PRIMARY) in r.workers && LooseInv(r)
      && StopRun(r, again) == r
  {
    var fates: Fates := (w: WorkerId) => Spawns;
    var stopped := StopRun(s, p);
    StoppedIsOffline(s, p);
    hide EnableLocked, LooseInv, Inv;
    LateSpawn(stopped, target, key, fates);
    LateKeepsLoose(stopped, Some(Pair(target, Some(key))), fates);
    StopOfInactive(EnableLocked(stopped, Some(Pair(target, Some(key))), fates).s, again);
  }

  lemma StoppedIsOffline(s: Sup, p: StopPlan)
    requires Inv(s) && MayEnable(s)
    ensures
      var r := StopRun(s, p);
      r.run == OFFLINE && LooseInv(r) && r.workers == {}
  {
    hide SessionsAgree, LegalRun, StopRun;
    StopKeepsInv(s, p);
    StopShape(s, p);
  }

  lemma LateSpawn(s: Sup, target: Target, key: string, fates: Fates)
    requires s.workers == {} && target.enabled && |key| >= MIN_SECRET_LENGTH && forall w :: fates(w) == Spawns
    ensures
      var r := EnableLocked(s, Some(Pair(target, Some(key))), fates).s;
      r.run == s.run && WorkerId(target.id, PRIMARY) in r.workers
  {
    var first := SpawnOne(Cached(s, target), WorkerId(target.id, PRIMARY), key, Spawns);
    assert Roles(target)[0] == PRIMARY;
    SpawnRolesGrow(first.s, target.id, key, Roles(target)[1..], fates);
  }

  lemma {:induction false} PairsLeaveOthersUnindexed(s: Sup, pairs: seq<Pair>, fates: Fates, t: string)
    requires t !in PairIds(pairs) && t !in s.index
    ensures
      var r := SpawnPairs(s, pairs, fates).s;
      s.workers <= r.workers && t !in r.index
    decreases |pairs|
  {
    if pairs != [] {
      assert pairs[0] in pairs && PairIds(pairs[1..]) <= PairIds(pairs);
      var p := pairs[0];
      if p.target.enabled && p.key.Some? {
        RolesLeaveOthersUnindexed(s, p.target.id, p.key.value, Roles(p.target), fates, t);
      }
      PairsLeaveOthersUnindexed(SpawnPair(s, p, fates).s, pairs[1..], fates, t);
    }
  }

  lemma {:induction false} RolesLeaveOthersUnindexed(s: Sup, target: string, key: string, roles: seq<Role>,
                                                     fates: Fates, t: string)
    requires t != target && t !in s.index
    ensures
      var r := SpawnRoles(s, target, key, roles, fates).s;
      s.workers <= r.workers && t !in r.index
    decreases |roles|
  {
    if roles != [] {
      var w := WorkerId(target, roles[0]);
      RolesLeaveOthersUnindexed(SpawnOne(s, w, key, fates(w)).s, target, key, roles[1..], fates, t);
    }
  }

  /** The next start that succeeds without that target drops the worker from the
      index. It goes on running through the run, and disabling its target, which
      looks in the index, does not reach it. */
  lemma LeftWorkerEscapesDisable(s: Sup, w: WorkerId, p: StartPlan)
    requires LooseInv(s) && s.run == OFFLINE && w in s.workers && Possible(s, DoStart(p))
    requires p.sessionId.Some? && p.pairs.Some? && w.targetId !in PairIds(p.pairs.value) && !Start(s, p).raised
    ensures
      var r := Do(s, DoStart(p));
      && r.run == ARMED && w in r.workers && !BooksOk(r)
      && w in Do(r, DoDisable(w.targetId)).workers
  {
    var starting := SetRun(s, START_REQUESTED);
    var begun := starting.(runId := p.sessionId, rows := s.rows[p.sessionId.value := RunRow(p.now, None, None)]);
    PairsLeaveOthersUnindexed(Loaded(begun, p.pairs.value), p.pairs.value, p.fates, w.targetId);
    var r := Do(s, DoStart(p));
    StartedShape(s, p);
    assert w.targetId !in r.index;
  }

  lemma StartedShape(s: Sup, p: StartPlan)
    requires s.run == OFFLINE && p.sessionId.Some? && p.pairs.Some? && !Start(s, p).raised
    ensures
      var starting := SetRun(s, START_REQUESTED);
      var begun := starting.(runId := p.sessionId, rows := s.rows[p.sessionId.value := RunRow(p.now, None, None)]);
      var spawned := SpawnPairs(Loaded(begun, p.pairs.value), p.pairs.value, p.fates).s;
      Start(s, p).s.run == ARMED && Start(s, p).s.workers == spawned.workers && Start(s, p).s.index == spawned.index
  {
    hide SpawnPairs;
  }
}
