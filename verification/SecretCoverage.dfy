/** Whether the secret of every live worker is registered for redaction. The
    registry is a set and not a count, so a secret that two workers share can be
    struck from it while one of them still runs. */
module SecretCoverage {
  import opened Options
  import opened RunStates
  import opened SupervisorModel
  import opened SupervisorTheorems

  /** Every live worker's secret is registered for redaction. */
  ghost predicate Covered(s: Sup) {
    forall w :: w in s.workers && w in s.secrets ==> s.secrets[w] in s.registry
  }

  /** Stopping some workers leaves the rest covered exactly when none of the
      rest shares a secret with them: the registry is a set, not a count. */
  lemma TearDownCoversUnlessShared(s: Sup, gone: set<WorkerId>)
    requires BooksOk(s) && Covered(s) && gone <= s.workers
    ensures Covered(TearDown(s, gone)) <==>
            forall w :: w in s.workers && w !in gone ==> s.secrets[w] !in SecretsOf(s.secrets, gone)
  {
    var r := TearDown(s, gone);
    if Covered(r) {
      forall w | w in s.workers && w !in gone ensures s.secrets[w] !in SecretsOf(s.secrets, gone) {
        assert w in r.workers && r.secrets[w] == s.secrets[w];
      }
    } else {
      var w :| w in r.workers && w in r.secrets && r.secrets[w] !in r.registry;
      assert s.secrets[w] in s.registry;
    }
  }

  /** Starting one more worker keeps coverage except in one case, exactly: the
      start fails after its secret was registered, and a live worker has the
      same secret, which the rollback then unregisters. */
  lemma SpawnCoversUnlessSharedRollback(s: Sup, w: WorkerId, key: string, fate: Fate)
    requires BooksOk(s) && Covered(s)
    ensures
      var rolledBack := w !in s.workers && |key| >= MIN_SECRET_LENGTH && fate == SpawnFails;
      Covered(SpawnOne(s, w, key, fate).s) <==> !(rolledBack && key in SecretsOf(s.secrets, s.workers))
  {
    var r := SpawnOne(s, w, key, fate).s;
    if w !in s.workers && |key| >= MIN_SECRET_LENGTH && fate == SpawnFails {
      if key in SecretsOf(s.secrets, s.workers) {
        var v :| v in s.workers && v in s.secrets && s.secrets[v] == key;
        assert v in r.workers && r.secrets[v] == key;
      } else {
        forall v | v in r.workers && v in r.secrets ensures r.secrets[v] in r.registry {
          assert v in s.workers && r.secrets[v] == s.secrets[v] && s.secrets[v] in SecretsOf(s.secrets, s.workers);
        }
      }
    }
  }

  /** The two roles of one target always share a secret: a YouTube target whose
      backup cannot be started keeps its primary running, unregistered. */
  lemma FailedBackupUncoversPrimary(s: Sup, target: Target, key: string)
    requires Inv(s) && (s.run == ARMED || s.run == LIVE) && |key| >= MIN_SECRET_LENGTH
    requires target.enabled && target.youtube && target.backupEnabled
    requires WorkerId(target.id, PRIMARY) !in s.workers && WorkerId(target.id, BACKUP) !in s.workers
    ensures
      var fates: Fates := (w: WorkerId) => if w.role == BACKUP then SpawnFails else Spawns;
      var r := Enable(s, Some(Pair(target, Some(key))), fates);
      && r.raised && WorkerId(target.id, PRIMARY) in r.s.workers
      && (WorkerId(target.id, PRIMARY), key) in r.s.secrets.Items && key !in r.s.registry
  {
    var fates: Fates := (w: WorkerId) => if w.role == BACKUP then SpawnFails else Spawns;
    var primary, backup := WorkerId(target.id, PRIMARY), WorkerId(target.id, BACKUP);
    var s0 := Cached(s, target);
    var s1 := SpawnOne(s0, primary, key, Spawns).s;
    var s2 := SpawnOne(s1, backup, key, SpawnFails);
    assert [PRIMARY, BACKUP][1..] == [BACKUP];
    assert SpawnRoles(s0, target.id, key, [PRIMARY, BACKUP], fates) == SpawnRoles(s1, target.id, key, [BACKUP], fates);
    assert SpawnRoles(s1, target.id, key, [BACKUP], fates) == s2;
  }

  // ---------------------------------------------------------------------
  // Over whole runs
  // ---------------------------------------------------------------------

  /** Each key belongs to one worker: the only role of the target it comes with. */
  ghost predicate PairOwned(owner: string -> WorkerId, p: Pair) {
    p.target.enabled && p.key.Some? ==>
      forall role :: role in Roles(p.target) ==> owner(p.key.value) == WorkerId(p.target.id, role)
  }

  ghost predicate StepOwned(owner: string -> WorkerId, step: Step) {
    match step
    case DoStart(plan) =>
      plan.pairs.Some? ==> forall i :: 0 <= i < |plan.pairs.value| ==> PairOwned(owner, plan.pairs.value[i])
    case DoEnable(found, _) => found.Some? ==> PairOwned(owner, found.value)
    case _ => true
  }

  /** Live workers are covered, and each holds a key of its own. */
  ghost predicate Secured(owner: string -> WorkerId, s: Sup) {
    && BooksOk(s) && Covered(s)
    && forall w :: w in s.workers && w in s.secrets ==> owner(s.secrets[w]) == w
  }

  lemma SpawnOneSecures(owner: string -> WorkerId, s: Sup, w: WorkerId, key: string, fate: Fate)
    requires Secured(owner, s) && owner(key) == w
    ensures Secured(owner, SpawnOne(s, w, key, fate).s)
  {
    SpawnOneKeepsBooks(s, w, key, fate);
    SpawnCoversUnlessSharedRollback(s, w, key, fate);
  }

  lemma {:induction false} SpawnRolesSecures(owner: string -> WorkerId, s: Sup, target: string, key: string,
                                             roles: seq<Role>, fates: Fates)
    requires Secured(owner, s) && forall role :: role in roles ==> owner(key) == WorkerId(target, role)
    ensures Secured(owner, SpawnRoles(s, target, key, roles, fates).s)
    decreases |roles|
  {
    hide Secured, SpawnOne;
    if roles != [] {
      var w := WorkerId(target, roles[0]);
      SpawnOneSecures(owner, s, w, key, fates(w));
      SpawnRolesSecures(owner, SpawnOne(s, w, key, fates(w)).s, target, key, roles[1..], fates);
    }
  }

  lemma SpawnPairSecures(owner: string -> WorkerId, s: Sup, p: Pair, fates: Fates)
    requires Secured(owner, s) && PairOwned(owner, p)
    ensures Secured(owner, SpawnPair(s, p, fates).s)
  {
    hide Secured, SpawnRoles;
    if p.target.enabled && p.key.Some? {
      SpawnRolesSecures(owner, s, p.target.id, p.key.value, Roles(p.target), fates);
    }
  }

  lemma {:induction false} SpawnPairsSecures(owner: string -> WorkerId, s: Sup, pairs: seq<Pair>, fates: Fates)
    requires Secured(owner, s) && forall i :: 0 <= i < |pairs| ==> PairOwned(owner, pairs[i])
    ensures Secured(owner, SpawnPairs(s, pairs, fates).s)
    decreases |pairs|
  {
    hide Secured, SpawnPair, PairOwned;
    if pairs != [] {
      SpawnPairSecures(owner, s, pairs[0], fates);
      SpawnPairsSecures(owner, SpawnPair(s, pairs[0], fates).s, pairs[1..], fates);
    }
  }

  lemma TearDownSecures(owner: string -> WorkerId, s: Sup, gone: set<WorkerId>)
    requires Secured(owner, s) && gone <= s.workers
    ensures Secured(owner, TearDown(s, gone))
  {
    TearDownKeepsBooks(s, gone);
    forall w | w in s.workers && w !in gone ensures s.secrets[w] !in SecretsOf(s.secrets, gone) {
      assert owner(s.secrets[w]) == w;
    }
    TearDownCoversUnlessShared(s, gone);
  }

  lemma TryStartSecures(owner: string -> WorkerId, s: Sup, p: StartPlan)
    requires Secured(owner, s) && s.run == STARTING && s.workers == {}
    requires StepOwned(owner, DoStart(p))
    ensures Secured(owner, TryStart(s, p).s)
  {
    if p.sessionId.Some? && p.pairs.Some? {
      var begun := s.(runId := p.sessionId, rows := s.rows[p.sessionId.value := RunRow(p.now, None, None)]);
      var indexed := Loaded(begun, p.pairs.value);
      assert Secured(owner, indexed);
      SpawnPairsSecures(owner, indexed, p.pairs.value, p.fates);
      assert SameBooks(SpawnPairs(indexed, p.pairs.value, p.fates).s, TryStart(s, p).s);
    }
  }

  lemma SameBooksSecures(owner: string -> WorkerId, s: Sup, r: Sup)
    requires Secured(owner, s) && SameBooks(s, r)
    ensures Secured(owner, r)
  {
  }

  lemma StartBooks(s: Sup, p: StartPlan)
    requires s.run == OFFLINE
    ensures
      var tried := TryStart(SetRun(s, START_REQUESTED), p);
      SameBooks(if tried.raised then TearDown(tried.s, tried.s.workers) else tried.s, Start(s, p).s)
  {
    hide TryStart, TearDown, CloseSession;
  }

  lemma StartSecures(owner: string -> WorkerId, s: Sup, p: StartPlan)
    requires Inv(s) && Secured(owner, s) && StepOwned(owner, DoStart(p))
    ensures Secured(owner, Start(s, p).s)
  {
    if s.run == OFFLINE {
      hide Secured, TryStart, TearDown, StepOwned, BooksAgree, SessionsAgree, LegalRun, Start;
      var starting := SetRun(s, START_REQUESTED);
      SameBooksSecures(owner, s, starting);
      TryStartSecures(owner, starting, p);
      var tried := TryStart(starting, p);
      TearDownSecures(owner, tried.s, tried.s.workers);
      StartBooks(s, p);
      SameBooksSecures(owner, if tried.raised then TearDown(tried.s, tried.s.workers) else tried.s, Start(s, p).s);
    }
  }

  lemma EnableSecures(owner: string -> WorkerId, s: Sup, found: Option<Pair>, fates: Fates)
    requires Secured(owner, s) && StepOwned(owner, DoEnable(found, fates))
    ensures Secured(owner, Enable(s, found, fates).s)
  {
    if MayEnable(s) && found.Some? {
      var indexed := Cached(s, found.value.target);
      assert Secured(owner, indexed);
      SpawnPairSecures(owner, indexed, found.value, fates);
    }
  }

  lemma StopSecures(owner: string -> WorkerId, s: Sup, p: StopPlan)
    requires Inv(s) && Secured(owner, s)
    ensures Secured(owner, StopRun(s, p))
  {
    hide Secured, TearDown, StopRun, CloseSession, Wiped;
    if s.run == OFFLINE || s.run == ERROR {
      StopOfInactive(s, p);
    } else {
      var stopping := SetRun(s, STOP_REQUESTED);
      SameBooksSecures(owner, s, stopping);
      TearDownSecures(owner, stopping, stopping.workers);
      StopShape(s, p);
      SameBooksSecures(owner, TearDown(stopping, stopping.workers), StopRun(s, p));
    }
  }

  lemma StepSecures(owner: string -> WorkerId, s: Sup, step: Step)
    requires Inv(s) && Secured(owner, s) && StepOwned(owner, step)
    ensures Secured(owner, Do(s, step))
  {
    match step {
      case DoStart(plan) => StartSecures(owner, s, plan);
      case DoStop(stop) => StopSecures(owner, s, stop);
      case DoEnable(found, fates) => EnableSecures(owner, s, found, fates);
      case DoDisable(target) => TearDownSecures(owner, s, IndexOf(s, target) * s.workers);
      case DoPublishBegan => assert SameBooks(s, PublishBegan(s));
      case DoPublishEnded => assert SameBooks(s, PublishEnded(s));
      case DoStore(target) => assert SameBooks(s, Do(s, step));
      case CrashAndBoot =>
    }
  }

  /** Over every sequence of steps in which no two workers are given the same
      key, whatever fails or crashes, the secret of every live worker is
      registered. */
  lemma {:induction false} DistinctKeysAreAlwaysCovered(owner: string -> WorkerId, rows: map<string, RunRow>,
                                                        creds: set<string>, steps: seq<Step>)
    requires forall i :: 0 <= i < |steps| ==> StepOwned(owner, steps[i])
    ensures
      var end := RunSteps(rows, creds, steps);
      end.Some? ==> Secured(owner, end.value) && Covered(end.value)
    decreases |steps|
  {
    hide Do, StepOwned, Inv;
    if steps != [] {
      var n := |steps| - 1;
      DistinctKeysAreAlwaysCovered(owner, rows, creds, steps[..n]);
      BooksAlwaysAgree(rows, creds, steps[..n]);
      var before := RunSteps(rows, creds, steps[..n]);
      if before.Some? && Possible(before.value, steps[n]) {
        StepSecures(owner, before.value, steps[n]);
      }
    }
  }
}
