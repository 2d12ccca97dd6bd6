/** The supervisor object of app/fanout/supervisor.py, its dictionaries updated
    in place by the loops of the source, each method proved to take the step of
    SupervisorModel it stands for. */
module Supervisors {
  import opened Options
  import opened RunStates
  import opened SupervisorModel

  datatype AuditRow = AuditRow(eventType: string, sessionId: string, startedAt: int)

  /** The audit rows of recovered sessions, in their order. */
  function AuditOf(ids: seq<string>, rows: map<string, RunRow>): seq<AuditRow> {
    if ids == [] then []
    else
      var n := |ids| - 1;
      AuditOf(ids[..n], rows) +
      if ids[n] in rows then [AuditRow("interrupted_session_recovered", ids[n], rows[ids[n]].startedAt)] else []
  }

  lemma AuditOfOneMore(ids: seq<string>, id: string, rows: map<string, RunRow>)
    requires id in rows
    ensures AuditOf(ids + [id], rows) ==
            AuditOf(ids, rows) + [AuditRow("interrupted_session_recovered", id, rows[id].startedAt)]
  {
    assert (ids + [id])[..|ids|] == ids;
  }

  lemma OneMoreTaken(taken: seq<string>, left: set<string>, id: string)
    requires id in left
    ensures multiset(taken + [id]) + multiset(left - {id}) == multiset(taken) + multiset(left)
  {
  }

  class Supervisor {
    var runState: RunState
    var workers: set<WorkerId>
    var registeredSecrets: map<WorkerId, string>
    var targetToWorkers: map<string, set<WorkerId>>
    var registry: set<string>
    var currentRunId: Option<string>
    var rows: map<string, RunRow>
    var published: seq<RunChange>
    var targets: map<string, bool>
    var creds: set<string>
    var audit: seq<AuditRow>
    ghost var lost: set<string>

    ghost function Abs(): Sup
      reads this
    {
      Sup(runState, workers, registeredSecrets, targetToWorkers, registry, currentRunId, rows, published,
          targets, creds, lost)
    }

    /** Boots on the rows and credentials a former process left: every open row is
        closed at its start time. */
    constructor (oldRows: map<string, RunRow>, stored: set<string>)
      ensures Abs() == Boot(oldRows, stored)
    {
      runState, workers, registeredSecrets, targetToWorkers := OFFLINE, {}, map[], map[];
      registry, currentRunId, published, audit, lost := {}, None, [], [], {};
      rows, targets, creds := oldRows, map[], stored;
      new;
      var recovered := RecoverInterruptedSessions();
    }

    /** Closes every open row at its start time, with an audit row for each, and
        returns their ids in the order taken. */
    method RecoverInterruptedSessions() returns (recovered: seq<string>)
      modifies this`rows, this`audit
      ensures rows == Recovered(old(rows))
      ensures multiset(recovered) == multiset(OpenRows(old(rows)))
      ensures audit == old(audit) + AuditOf(recovered, old(rows))
    {
      var open := OpenRows(rows);
      recovered := [];
      assert AuditOf(recovered, rows) == [];
      hide AuditOf, RecoveredRow;
      while open != {}
        invariant open <= OpenRows(old(rows)) && rows.Keys == old(rows).Keys
        invariant multiset(recovered) + multiset(open) == multiset(OpenRows(old(rows)))
        invariant audit == old(audit) + AuditOf(recovered, old(rows))
        invariant forall id :: id in rows ==> rows[id] == if id in open then old(rows)[id] else RecoveredRow(old(rows)[id])
        decreases open
      {
        var id :| id in open;
        audit := audit + [AuditRow("interrupted_session_recovered", id, rows[id].startedAt)];
        rows := rows[id := RecoveredRow(rows[id])];
        AuditOfOneMore(recovered, id, old(rows));
        OneMoreTaken(recovered, open, id);
        recovered := recovered + [id];
        open := open - {id};
      }
    }

    method SetRunState(a: RunAction)
      requires Transition(runState, a).Some?
      modifies this
      ensures Abs() == SetRun(old(Abs()), a)
    {
      var previous := runState;
      runState := Transition(runState, a).value;
      published := published + [RunChange(runState, previous)];
    }

    // -------------------------------------------------------------------
    // Spawning
    // -------------------------------------------------------------------

    /** Registers the secret, books the worker and starts it; whatever raises
        after the registration is rolled back. */
    method SpawnWorker(w: WorkerId, key: string, fate: Fate) returns (raised: bool)
      requires BooksOk(Abs()) && w.targetId in targetToWorkers
      modifies this
      ensures Outcome(Abs(), raised) == SpawnOne(old(Abs()), w, key, fate)
      ensures BooksOk(Abs()) && targetToWorkers.Keys == old(targetToWorkers).Keys
    {
      SpawnOneKeepsBooks(Abs(), w, key, fate);
      hide BooksAgree;
      if w in workers {
        return false;
      }
      if fate == ComposeFails || |key| < MIN_SECRET_LENGTH {
        return true;
      }
      ghost var before := Abs();
      BookWorker(w, key);
      if fate == SpawnFails {
        RollBackWorker(w);
        RolledBack(before, w, key);
        return true;
      }
      return false;
    }

    method BookWorker(w: WorkerId, key: string)
      requires w.targetId in targetToWorkers
      modifies this
      ensures
        var s := old(Abs());
        Abs() == s.(workers := s.workers + {w}, secrets := s.secrets[w := key], registry := s.registry + {key},
                    index := s.index[w.targetId := s.index[w.targetId] + {w}])
    {
      registry := registry + {key};
      registeredSecrets := registeredSecrets[w := key];
      workers := workers + {w};
      targetToWorkers := targetToWorkers[w.targetId := targetToWorkers[w.targetId] + {w}];
    }

    method RollBackWorker(w: WorkerId)
      requires w.targetId in targetToWorkers && w in registeredSecrets
      modifies this
      ensures
        var s := old(Abs());
        Abs() == s.(workers := s.workers - {w}, secrets := s.secrets - {w},
                    registry := s.registry - {s.secrets[w]},
                    index := s.index[w.targetId := s.index[w.targetId] - {w}])
    {
      UnregisterSecret(w);
      workers := workers - {w};
      targetToWorkers := targetToWorkers[w.targetId := targetToWorkers[w.targetId] - {w}];
    }

    method UnregisterSecret(w: WorkerId)
      modifies this`registeredSecrets, this`registry
      ensures registeredSecrets == old(registeredSecrets) - {w}
      ensures registry == old(registry) - (if w in old(registeredSecrets) then {old(registeredSecrets)[w]} else {})
    {
      if w in registeredSecrets {
        registry := registry - {registeredSecrets[w]};
      }
      registeredSecrets := registeredSecrets - {w};
    }

    method SpawnWorkersForTarget(p: Pair, fates: Fates) returns (raised: bool)
      requires BooksOk(Abs()) && p.target.id in targetToWorkers
      modifies this
      ensures Outcome(Abs(), raised) == SpawnPair(old(Abs()), p, fates)
      ensures BooksOk(Abs()) && targetToWorkers.Keys == old(targetToWorkers).Keys
    {
      if !p.target.enabled || p.key.None? {
        return false;
      }
      var roles := Roles(p.target);
      ghost var goal := SpawnRoles(Abs(), p.target.id, p.key.value, roles, fates);
      while roles != []
        invariant BooksOk(Abs()) && targetToWorkers.Keys == old(targetToWorkers).Keys
        invariant goal == SpawnRoles(Abs(), p.target.id, p.key.value, roles, fates)
        decreases |roles|
      {
        var w := WorkerId(p.target.id, roles[0]);
        raised := SpawnWorker(w, p.key.value, fates(w));
        if raised {
          return;
        }
        roles := roles[1..];
      }
      raised := false;
    }

    method SpawnAllPairs(pairs: seq<Pair>, fates: Fates) returns (raised: bool)
      requires BooksOk(Abs()) && PairIds(pairs) <= targetToWorkers.Keys
      modifies this
      ensures Outcome(Abs(), raised) == SpawnPairs(old(Abs()), pairs, fates)
      ensures BooksOk(Abs())
    {
      var i := 0;
      while i < |pairs|
        invariant 0 <= i <= |pairs| && BooksOk(Abs())
        invariant targetToWorkers.Keys == old(targetToWorkers).Keys
        invariant SpawnPairs(old(Abs()), pairs, fates) == SpawnPairs(Abs(), pairs[i..], fates)
      {
        assert pairs[i] in pairs && pairs[i].target.id in PairIds(pairs);
        ghost var rest := pairs[i..];
        assert rest[0] == pairs[i] && rest[1..] == pairs[i + 1..];
        raised := SpawnWorkersForTarget(pairs[i], fates);
        if raised {
          return;
        }
        i := i + 1;
      }
      raised := false;
    }

    // -------------------------------------------------------------------
    // Tearing down
    // -------------------------------------------------------------------

    method StrikeWorker(w: WorkerId)
      modifies this
      ensures
        var s := old(Abs());
        Abs() == s.(workers := s.workers - {w}, secrets := s.secrets - {w},
                    registry := s.registry - (if w in s.secrets then {s.secrets[w]} else {}),
                    index := map t | t in s.index :: s.index[t] - {w})
    {
      UnregisterSecret(w);
      workers := workers - {w};
      targetToWorkers := map t | t in targetToWorkers :: targetToWorkers[t] - {w};
    }

    /** Strikes stopped workers from the books, one by one. */
    method TearDownWorkers(ids: set<WorkerId>)
      requires BooksOk(Abs()) && ids <= workers
      modifies this
      ensures Abs() == TearDown(old(Abs()), ids) && BooksOk(Abs())
    {
      hide TearDown, BooksAgree;
      ghost var s := Abs();
      var todo := ids;
      TearDownNone(s);
      assert ids - todo == {};
      while todo != {}
        invariant todo <= ids
        invariant Abs() == TearDown(s, ids - todo)
        decreases todo
      {
        var w :| w in todo;
        ghost var gone := ids - todo;
        StrikeWorker(w);
        todo := todo - {w};
        TearDownOneMore(s, gone, w);
        assert ids - todo == gone + {w};
      }
      assert ids - todo == ids;
      TearDownKeepsBooks(s, ids);
    }

    // -------------------------------------------------------------------
    // The public methods, each under the lock
    // -------------------------------------------------------------------

    method CloseRunSession(reason: string, now: int, ok: bool)
      modifies this`currentRunId, this`rows, this`lost
      ensures Abs() == CloseSession(old(Abs()), reason, now, ok)
    {
      if currentRunId.None? {
        return;
      }
      var id := currentRunId.value;
      currentRunId := None;
      if !ok {
        lost := lost + {id};
      } else if id in rows {
        rows := rows[id := rows[id].(endedAt := Some(now), endReason := Some(reason))];
      }
    }

    method TryStartRun(p: StartPlan) returns (raised: bool)
      requires BooksOk(Abs()) && runState == STARTING && workers == {} && registeredSecrets == map[] && registry == {}
      modifies this
      ensures Outcome(Abs(), raised) == TryStart(old(Abs()), p)
      ensures BooksOk(Abs()) && (runState == STARTING || runState == ARMED)
    {
      if p.sessionId.None? {
        return true;
      }
      currentRunId := p.sessionId;
      rows := rows[p.sessionId.value := RunRow(p.now, None, None)];
      if p.pairs.None? {
        return true;
      }
      targets := CachedOf(p.pairs.value);
      targetToWorkers := map t | t in PairIds(p.pairs.value) :: {};
      ghost var indexed := Abs();
      raised := SpawnAllPairs(p.pairs.value, p.fates);
      SpawnPairsKeepsBooks(indexed, p.pairs.value, p.fates);
      if raised {
        return;
      }
      SetRunState(WORKERS_SPAWNED);
      raised := !p.auditOk;
    }

    method StartRun(p: StartPlan) returns (raised: bool)
      requires Inv(Abs()) && Possible(Abs(), DoStart(p))
      modifies this
      ensures Outcome(Abs(), raised) == Start(old(Abs()), p)
    {
      if runState != OFFLINE {
        return true;
      }
      SetRunState(START_REQUESTED);
      raised := TryStartRun(p);
      if raised {
        TearDownWorkers(workers);
        SetRunState(UNRECOVERABLE_FAILED);
        CloseRunSession("error", p.now, p.closeOk);
      }
    }

    /** Deletes the credentials of the cached targets that are for one run only,
        one by one inside a transaction. */
    method WipePerSessionCredentials(ok: bool)
      modifies this`creds
      ensures Abs() == Wiped(old(Abs()), ok)
    {
      if !ok {
        return;
      }
      var todo := SingleUse(targets);
      while todo != {}
        invariant todo <= SingleUse(targets)
        invariant creds == old(creds) - (SingleUse(targets) - todo)
        decreases todo
      {
        var t :| t in todo;
        creds := creds - {t};
        todo := todo - {t};
      }
    }

    method StopRunNow(p: StopPlan)
      requires Inv(Abs())
      modifies this
      ensures Abs() == StopRun(old(Abs()), p)
    {
      if runState == OFFLINE || runState == STOPPING || runState == ERROR {
        return;
      }
      SetRunState(STOP_REQUESTED);
      TearDownWorkers(workers);
      WipePerSessionCredentials(p.wipeOk);
      CloseRunSession(p.reason, p.now, p.closeOk);
      SetRunState(WORKERS_DRAINED);
    }

    method EnableTarget(found: Option<Pair>, fates: Fates) returns (raised: bool)
      requires Inv(Abs())
      modifies this
      ensures Outcome(Abs(), raised) == Enable(old(Abs()), found, fates)
    {
      if runState != STARTING && runState != ARMED && runState != LIVE {
        return false;
      }
      if found.None? {
        return false;
      }
      var t := found.value.target.id;
      targets := targets[t := found.value.target.perSession];
      if t !in targetToWorkers {
        targetToWorkers := targetToWorkers[t := {}];
      }
      assert targetToWorkers == old(targetToWorkers)[t := IndexOf(old(Abs()), t)];
      raised := SpawnWorkersForTarget(found.value, fates);
    }

    method DisableTarget(target: string)
      requires Inv(Abs())
      modifies this
      ensures Abs() == Disable(old(Abs()), target)
    {
      var ids := if target in targetToWorkers then targetToWorkers[target] else {};
      TearDownWorkers(ids * workers);
    }

    method NotifyObsPublishBegan()
      modifies this
      ensures Abs() == PublishBegan(old(Abs()))
    {
      if runState == ARMED {
        SetRunState(OBS_PUBLISH_BEGAN);
      }
    }

    method NotifyObsPublishEnded()
      modifies this
      ensures Abs() == PublishEnded(old(Abs()))
    {
      if runState == LIVE {
        SetRunState(OBS_PUBLISH_ENDED);
      }
    }
  }

  /** Undoing what a failed spawn had booked. */
  lemma RolledBack(s: Sup, w: WorkerId, key: string)
    requires w !in s.workers && w.targetId in s.index
    ensures s.workers + {w} - {w} == s.workers
    ensures s.registry + {key} - {key} == s.registry - {key}
    ensures s.secrets[w := key] - {w} == s.secrets - {w}
    ensures
      var added := s.index[w.targetId := s.index[w.targetId] + {w}];
      added[w.targetId := added[w.targetId] - {w}] == s.index[w.targetId := s.index[w.targetId] - {w}]
  {
    assert s.index[w.targetId] + {w} - {w} == s.index[w.targetId] - {w};
  }

  lemma TearDownNone(s: Sup)
    ensures TearDown(s, {}) == s
  {
    assert forall t :: t in s.index ==> s.index[t] - {} == s.index[t];
    assert (map t | t in s.index :: s.index[t] - {}) == s.index;
    assert SecretsOf(s.secrets, {}) == {};
  }

  lemma TearDownOneMore(s: Sup, gone: set<WorkerId>, w: WorkerId)
    requires BooksOk(s) && gone <= s.workers && w in s.workers && w !in gone
    ensures
      var r := TearDown(s, gone);
      && w in r.secrets
      && TearDown(s, gone + {w}) ==
           r.(workers := r.workers - {w}, secrets := r.secrets - {w}, registry := r.registry - {r.secrets[w]},
              index := map t | t in r.index :: r.index[t] - {w})
  {
    assert SecretsOf(s.secrets, gone + {w}) == SecretsOf(s.secrets, gone) + {s.secrets[w]};
    assert s.secrets - (gone + {w}) == s.secrets - gone - {w};
    assert forall t :: t in s.index ==> s.index[t] - (gone + {w}) == s.index[t] - gone - {w};
    assert s.workers - (gone + {w}) == s.workers - gone - {w};
  }
}
