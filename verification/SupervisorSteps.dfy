/** What the single steps of the supervisor leave: failed starts, stops, disables
    and publish signals, with the changes they publish and the credentials they
    delete (app/fanout/supervisor.py). */
module SupervisorSteps {
  import opened Options
  import opened RunStates
  import opened SupervisorModel
  import opened SupervisorTheorems
  import opened Spawning

  /** A start that raises takes every worker down again, goes to ERROR, by way of
      ARMED only if nothing but the audit row failed, and closes the session it
      opened with the reason "error", if that write succeeds. */
  lemma FailedStartLeavesNothing(s: Sup, p: StartPlan)
    requires Inv(s) && s.run == OFFLINE && Possible(s, DoStart(p)) && Start(s, p).raised
    ensures
      var r := Start(s, p).s;
      var armed := p.sessionId.Some? && p.pairs.Some? && !SpawnPairs(Ready(s, p), p.pairs.value, p.fates).raised;
      && r.run == ERROR && r.workers == {} && r.secrets == map[] && r.registry == {} && r.runId.None?
      && r.rows == (if p.sessionId.None? then s.rows
                    else s.rows[p.sessionId.value := if p.closeOk then RunRow(p.now, Some(p.now), Some("error"))
                                                     else RunRow(p.now, None, None)])
      && r.published == s.published + [RunChange(STARTING, OFFLINE)] +
                        (if armed then [RunChange(ARMED, STARTING), RunChange(ERROR, ARMED)]
                         else [RunChange(ERROR, STARTING)])
  {
    hide TryStart, Start, SpawnPairs, Ready, Inv;
    RestingBooks(s);
    StartKeepsInv(s, p);
    TryStartSessions(SetRun(s, START_REQUESTED), p);
    TryStartRuns(s, p);
    FailedRows(s, p);
    RestingBooks(Start(s, p).s);
  }

  lemma RestingBooks(s: Sup)
    requires Inv(s) && (s.run == OFFLINE || s.run == ERROR)
    ensures s.workers == {} && s.secrets == map[] && s.registry == {} && s.runId.None?
  {
    assert s.secrets.Keys == {} && SecretsOf(s.secrets, {}) == {};
  }

  lemma TryStartRuns(s: Sup, p: StartPlan)
    requires Inv(s) && s.run == OFFLINE
    ensures
      var tried := TryStart(SetRun(s, START_REQUESTED), p);
      var armed := p.sessionId.Some? && p.pairs.Some? && !SpawnPairs(Ready(s, p), p.pairs.value, p.fates).raised;
      && tried.s.run == (if armed then ARMED else STARTING)
      && tried.s.published ==
           s.published + [RunChange(STARTING, OFFLINE)] + (if armed then [RunChange(ARMED, STARTING)] else [])
  {
    if p.sessionId.Some? && p.pairs.Some? {
      ReadyShape(s, p);
      SpawnPairsKeepsBooks(Ready(s, p), p.pairs.value, p.fates);
      hide SpawnPairs, Loaded;
    }
  }

  lemma FailedRows(s: Sup, p: StartPlan)
    requires s.run == OFFLINE && Start(s, p).raised
    requires
      var run := TryStart(SetRun(s, START_REQUESTED), p).s.run;
      run == STARTING || run == ARMED
    ensures
      var tried, r := TryStart(SetRun(s, START_REQUESTED), p).s, Start(s, p).s;
      && r.run == ERROR && r.published == tried.published + [RunChange(ERROR, tried.run)]
      && r.rows == (if tried.runId.None? || !p.closeOk || tried.runId.value !in tried.rows then tried.rows
                    else tried.rows[tried.runId.value :=
                           RunRow(tried.rows[tried.runId.value].startedAt, Some(p.now), Some("error"))])
  {
    hide TryStart, TearDown;
  }

  // ---------------------------------------------------------------------
  // Stops, disables and publish signals
  // ---------------------------------------------------------------------

  /** A stop of an active run leaves no worker, secret or registered key, closes
      the session's row with the stop's time and reason if that write succeeds,
      deletes the credentials for one run if that one does, and goes by STOPPING
      to OFFLINE. Any other stop changes nothing. */
  lemma StopLeavesNothing(s: Sup, p: StopPlan)
    requires Inv(s)
    ensures
      var r := StopRun(s, p);
      if s.run != ARMED && s.run != LIVE then r == s
      else
        var id := s.runId.value;
        && r.run == OFFLINE && r.workers == {} && r.secrets == map[] && r.registry == {} && r.runId.None?
        && id in s.rows
        && r.rows == (if p.closeOk then s.rows[id := RunRow(s.rows[id].startedAt, Some(p.now), Some(p.reason))]
                      else s.rows)
        && r.lost == (if p.closeOk then s.lost else s.lost + {id})
        && (forall t :: t in r.creds <==> t in s.creds && !(p.wipeOk && t in s.targets && s.targets[t]))
        && r.published == s.published + [RunChange(STOPPING, s.run), RunChange(OFFLINE, STOPPING)]
  {
    if s.run == ARMED || s.run == LIVE {
      assert s.runId.value in OpenRows(s.rows);
      StopShape(s, p);
      TearDownKeepsBooks(SetRun(s, STOP_REQUESTED), s.workers);
      StoppedBooks(s);
      hide StopRun, BooksAgree, SessionsAgree, LegalRun, TearDown;
    }
  }

  lemma StoppedBooks(s: Sup)
    requires Inv(s) && (s.run == ARMED || s.run == LIVE)
    ensures
      var down := TearDown(SetRun(s, STOP_REQUESTED), s.workers);
      down.workers == {} && down.secrets == map[] && down.registry == {}
  {
    assert s.secrets - s.workers == map[];
  }

  /** A disable leaves no worker of its target, and exactly the others, with their
      secrets; of the registered keys it strikes those of the workers stopped. */
  lemma DisableLeavesOthers(s: Sup, target: string)
    requires Inv(s)
    ensures
      var r := Disable(s, target);
      && (forall w :: w in r.workers <==> w in s.workers && w.targetId != target)
      && r.secrets.Keys == r.workers && (forall w :: w in r.workers ==> r.secrets[w] == s.secrets[w])
      && (forall key :: key in r.registry <==>
            key in s.registry && forall w :: w in s.workers && w.targetId == target ==> s.secrets[w] != key)
      && SameRun(s, r)
  {
    var gone := IndexOf(s, target) * s.workers;
    assert forall w :: w in gone <==> w in s.workers && w.targetId == target;
    TearDownKeepsBooks(s, gone);
    forall key ensures key in SecretsOf(s.secrets, gone) <==> exists w :: w in gone && s.secrets[w] == key {
    }
  }

  /** The publish signals move an active run between ARMED and LIVE, whichever of
      the two it is in, publish each change once, and change nothing else. */
  lemma PublishSignals(s: Sup)
    ensures PublishBegan(s) ==
            if s.run == ARMED then s.(run := LIVE, published := s.published + [RunChange(LIVE, ARMED)]) else s
    ensures PublishEnded(s) ==
            if s.run == LIVE then s.(run := ARMED, published := s.published + [RunChange(ARMED, LIVE)]) else s
    ensures s.run == ARMED || s.run == LIVE ==>
      PublishBegan(s).run == LIVE && PublishEnded(s).run == ARMED
      && PublishBegan(PublishBegan(s)) == PublishBegan(s) && PublishEnded(PublishEnded(s)) == PublishEnded(s)
  {
  }

  // ---------------------------------------------------------------------
  // Credentials for one run
  // ---------------------------------------------------------------------

  /** A credential that is not stored appears in one case, exactly: it is saved. */
  lemma OnlyStoresAdd(s: Sup, step: Step, target: string)
    requires Inv(s) && Possible(s, step) && target !in s.creds
    ensures target in Do(s, step).creds <==> step == DoStore(target)
  {
    match step {
      case DoStart(p) => StartKeepsCreds(s, p);
      case DoEnable(found, fates) => EnableKeepsCreds(s, found, fates);
      case _ =>
    }
  }

  /** A run that is started and stopped, with its wipe succeeding, leaves exactly
      the credentials that are not for one run: of the targets read at the start,
      those of a platform with keys for one run lose theirs. */
  lemma RunWipesItsKeys(s: Sup, p: StartPlan, stop: StopPlan, target: string)
    requires Inv(s) && s.run == OFFLINE && Possible(s, DoStart(p)) && !Start(s, p).raised && stop.wipeOk
    ensures p.pairs.Some?
    ensures target in StopRun(Start(s, p).s, stop).creds <==>
            && target in s.creds
            && !exists i: nat :: LastFor(p.pairs.value, target, i) && p.pairs.value[i].target.perSession
  {
    var started := Start(s, p).s;
    StartSpawnsAll(s, p);
    StartKeepsInv(s, p);
    StartKeepsCreds(s, p);
    StopLeavesNothing(started, stop);
    hide Start, StopRun, Inv, LastFor;
    if i: nat :| LastFor(p.pairs.value, target, i) {
      OnlyOneLast(p.pairs.value, target, i);
    }
  }

  lemma OnlyOneLast(pairs: seq<Pair>, target: string, i: nat)
    requires LastFor(pairs, target, i)
    ensures forall j: nat :: LastFor(pairs, target, j) ==> j == i
  {
  }

  // ---------------------------------------------------------------------
  // The published changes
  // ---------------------------------------------------------------------

  /** The changes of the run state that a process ever publishes, from, to. */
  const CHANGES := {
    (OFFLINE, STARTING), (STARTING, ARMED), (STARTING, ERROR), (ARMED, ERROR),
    (ARMED, LIVE), (LIVE, ARMED), (ARMED, STOPPING), (LIVE, STOPPING), (STOPPING, OFFLINE)
  }

  /** The state that change `i` of some changes should start from. */
  function Origin(changes: seq<RunChange>, i: nat): RunState
    requires i <= |changes|
  {
    if i == 0 then OFFLINE else changes[i - 1].next
  }

  /** They are all listed, each starts where the one before ends, the first in
      OFFLINE, and the last ends where the supervisor stands. */
  ghost predicate Listed(changes: seq<RunChange>, run: RunState) {
    && (forall i :: 0 <= i < |changes| ==>
          (changes[i].previous, changes[i].next) in CHANGES && changes[i].previous == Origin(changes, i))
    && run == Origin(changes, |changes|)
  }

  lemma ListedMore(changes: seq<RunChange>, run: RunState, next: RunState)
    requires Listed(changes, run) && (run, next) in CHANGES
    ensures Listed(changes + [RunChange(next, run)], next)
  {
    var more := changes + [RunChange(next, run)];
    forall i | 0 <= i < |more|
      ensures (more[i].previous, more[i].next) in CHANGES && more[i].previous == Origin(more, i)
    {
      OriginStays(changes, RunChange(next, run), i);
      if i < |changes| {
        assert more[i] == changes[i];
      }
    }
  }

  lemma OriginStays(changes: seq<RunChange>, c: RunChange, i: nat)
    requires i <= |changes|
    ensures Origin(changes + [c], i) == Origin(changes, i)
  {
  }

  lemma StepPublishesListed(s: Sup, step: Step)
    requires Inv(s) && Possible(s, step) && Listed(s.published, s.run)
    ensures Listed(Do(s, step).published, Do(s, step).run)
  {
    hide Listed, Start, StopRun, Enable, Inv;
    match step {
      case DoStart(p) => StartPublishesListed(s, p);
      case DoStop(p) =>
        StopLeavesNothing(s, p);
        if s.run == ARMED || s.run == LIVE {
          ListedMore(s.published, s.run, STOPPING);
          ListedMore(s.published + [RunChange(STOPPING, s.run)], STOPPING, OFFLINE);
          TwoMore(s.published, RunChange(STOPPING, s.run), RunChange(OFFLINE, STOPPING));
        }
      case DoEnable(found, fates) => EnablePublishesNothing(s, found, fates);
      case DoDisable(target) => DisableLeavesOthers(s, target);
      case DoPublishBegan =>
        PublishSignals(s);
        if s.run == ARMED {
          ListedMore(s.published, ARMED, LIVE);
        }
      case DoPublishEnded =>
        PublishSignals(s);
        if s.run == LIVE {
          ListedMore(s.published, LIVE, ARMED);
        }
      case DoStore(_) =>
      case CrashAndBoot => NoneListed();
    }
  }

  lemma NoneListed()
    ensures Listed([], OFFLINE)
  {
  }

  lemma TwoMore(changes: seq<RunChange>, a: RunChange, b: RunChange)
    ensures changes + [a, b] == changes + [a] + [b]
  {
  }

  lemma EnablePublishesNothing(s: Sup, found: Option<Pair>, fates: Fates)
    requires Inv(s)
    ensures Enable(s, found, fates).s.published == s.published && Enable(s, found, fates).s.run == s.run
  {
    if MayEnable(s) && found.Some? {
      CachedKeepsBooks(s, found.value.target);
      SpawnPairKeepsBooks(Cached(s, found.value.target), found.value, fates);
    }
  }

  lemma StartPublishesListed(s: Sup, p: StartPlan)
    requires Inv(s) && Possible(s, DoStart(p)) && Listed(s.published, s.run)
    ensures Listed(Start(s, p).s.published, Start(s, p).s.run)
  {
    hide Listed, Inv;
    if s.run != OFFLINE {
      assert Start(s, p).s == s;
    } else {
      hide Start;
      var one := s.published + [RunChange(STARTING, OFFLINE)];
      var two := one + [RunChange(ARMED, STARTING)];
      ListedMore(s.published, OFFLINE, STARTING);
      ListedMore(one, STARTING, ARMED);
      ListedMore(one, STARTING, ERROR);
      ListedMore(two, ARMED, ERROR);
      if Start(s, p).raised {
        FailedStartLeavesNothing(s, p);
        TwoMore(one, RunChange(ARMED, STARTING), RunChange(ERROR, ARMED));
      } else {
        StartSpawnsAll(s, p);
        TwoMore(s.published, RunChange(STARTING, OFFLINE), RunChange(ARMED, STARTING));
      }
    }
  }

  /** Over every sequence of steps, whatever is published since the last boot is
      one path of the nine listed changes, out of OFFLINE, to where it stands. */
  lemma {:induction false} PublishedChangesAreListed(rows: map<string, RunRow>, creds: set<string>, steps: seq<Step>)
    ensures
      var end := RunSteps(rows, creds, steps);
      end.Some? ==> Listed(end.value.published, end.value.run)
    decreases |steps|
  {
    hide Listed, Inv, Do;
    if steps == [] {
      NoneListed();
    } else {
      var n := |steps| - 1;
      PublishedChangesAreListed(rows, creds, steps[..n]);
      BooksAlwaysAgree(rows, creds, steps[..n]);
      var before := RunSteps(rows, creds, steps[..n]);
      if before.Some? && Possible(before.value, steps[n]) {
        StepPublishesListed(before.value, steps[n]);
      }
    }
  }
}
