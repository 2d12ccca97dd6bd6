/** The supervisor of app/fanout/supervisor.py as a value: the run state, the
    books it keeps on workers and secrets, and the run-session rows. Each public
    method that holds the supervisor's lock is one step, and so is the death of
    the process followed by a boot. */
module SupervisorModel {
  import opened Options
  import opened RunStates
  import LogRedaction

  /** The registry refuses shorter secrets. */
  const MIN_SECRET_LENGTH := LogRedaction.MIN_SECRET_LENGTH

  datatype Role = PRIMARY | BACKUP

  datatype WorkerId = WorkerId(targetId: string, role: Role)

  /** `perSession` says that the credential is for one run only, as VK's is. */
  datatype Target = Target(id: string, enabled: bool, youtube: bool, backupEnabled: bool, perSession: bool)

  /** How the attempt to start one worker goes: the URL cannot be composed, or
      something raises once the secret is registered, or it starts. */
  datatype Fate = ComposeFails | SpawnFails | Spawns

  type Fates = WorkerId -> Fate

  /** A row of sessions_history. */
  datatype RunRow = RunRow(startedAt: int, endedAt: Option<int>, endReason: Option<string>)

  /** `targets` says of each cached target whether its credential is for one run
      only, and `creds` names the targets with a stored credential. `lost` names
      the run sessions whose closing write failed since boot. */
  datatype Sup = Sup(
    run: RunState,
    workers: set<WorkerId>,
    secrets: map<WorkerId, string>,
    index: map<string, set<WorkerId>>,
    registry: set<string>,
    runId: Option<string>,
    rows: map<string, RunRow>,
    published: seq<RunChange>,
    targets: map<string, bool>,
    creds: set<string>,
    lost: set<string>)

  datatype Outcome = Outcome(s: Sup, raised: bool)

  /** The books on workers and secrets are the same. */
  predicate SameBooks(s: Sup, r: Sup) {
    r.workers == s.workers && r.secrets == s.secrets && r.index == s.index && r.registry == s.registry
  }

  /** All but the books is the same. */
  predicate SameRun(s: Sup, r: Sup) {
    && r.run == s.run && r.runId == s.runId && r.rows == s.rows && r.published == s.published && r.lost == s.lost
    && r.targets == s.targets && r.creds == s.creds
  }

  /** `_set_run_state` and `_publish_run_state`. */
  function SetRun(s: Sup, a: RunAction): (r: Sup)
    requires Transition(s.run, a).Some?
    ensures SameBooks(s, r) && r.run == Transition(s.run, a).value
  {
    var next := Transition(s.run, a).value;
    s.(run := next, published := s.published + [RunChange(next, s.run)])
  }

  // ---------------------------------------------------------------------
  // Workers and secrets
  // ---------------------------------------------------------------------

  function Roles(t: Target): seq<Role> {
    if t.youtube && t.backupEnabled then [PRIMARY, BACKUP] else [PRIMARY]
  }

  function IndexOf(s: Sup, target: string): set<WorkerId> {
    if target in s.index then s.index[target] else {}
  }

  /** One pass of the loop in `_spawn_workers_for_target`, with its rollback. */
  function SpawnOne(s: Sup, w: WorkerId, key: string, fate: Fate): Outcome {
    if w in s.workers then Outcome(s, false)
    else if fate == ComposeFails || |key| < MIN_SECRET_LENGTH then Outcome(s, true)
    else if fate == SpawnFails then
      Outcome(s.(secrets := s.secrets - {w}, registry := s.registry - {key},
                 index := s.index[w.targetId := IndexOf(s, w.targetId) - {w}]), true)
    else
      Outcome(s.(workers := s.workers + {w}, secrets := s.secrets[w := key], registry := s.registry + {key},
                 index := s.index[w.targetId := IndexOf(s, w.targetId) + {w}]), false)
  }

  function SpawnRoles(s: Sup, target: string, key: string, roles: seq<Role>, fates: Fates): Outcome
    decreases |roles|
  {
    if roles == [] then Outcome(s, false)
    else
      var w := WorkerId(target, roles[0]);
      var first := SpawnOne(s, w, key, fates(w));
      if first.raised then first else SpawnRoles(first.s, target, key, roles[1..], fates)
  }

  /** A runnable target and its decrypted key, if it has one. */
  datatype Pair = Pair(target: Target, key: Option<string>)

  function SpawnPair(s: Sup, p: Pair, fates: Fates): Outcome {
    if !p.target.enabled || p.key.None? then Outcome(s, false)
    else SpawnRoles(s, p.target.id, p.key.value, Roles(p.target), fates)
  }

  function SpawnPairs(s: Sup, pairs: seq<Pair>, fates: Fates): Outcome
    decreases |pairs|
  {
    if pairs == [] then Outcome(s, false)
    else
      var first := SpawnPair(s, pairs[0], fates);
      if first.raised then first else SpawnPairs(first.s, pairs[1..], fates)
  }

  /** The secrets held for a set of workers. */
  function SecretsOf(secrets: map<WorkerId, string>, ws: set<WorkerId>): set<string> {
    set w | w in ws && w in secrets :: secrets[w]
  }

  /** Stops a set of workers and strikes them from all books. */
  function TearDown(s: Sup, gone: set<WorkerId>): (r: Sup)
    ensures SameRun(s, r) && r.workers == s.workers - gone
  {
    s.(workers := s.workers - gone,
       secrets := s.secrets - gone,
       registry := s.registry - SecretsOf(s.secrets, gone),
       index := map t | t in s.index :: s.index[t] - gone)
  }

  // ---------------------------------------------------------------------
  // Credentials
  // ---------------------------------------------------------------------

  /** `_targets` after a start: a later pair of one id wins. */
  function CachedOf(pairs: seq<Pair>): map<string, bool>
    decreases |pairs|
  {
    if pairs == [] then map[]
    else
      var last := pairs[|pairs| - 1].target;
      CachedOf(pairs[..|pairs| - 1])[last.id := last.perSession]
  }

  /** The cached targets whose credential is for one run only. */
  function SingleUse(targets: map<string, bool>): set<string> {
    set t | t in targets && targets[t]
  }

  /** `_wipe_per_session_credentials`: `ok` says whether its transaction succeeds. */
  function Wiped(s: Sup, ok: bool): (r: Sup)
    ensures SameBooks(s, r) && r.run == s.run && r.creds <= s.creds
  {
    if ok then s.(creds := s.creds - SingleUse(s.targets)) else s
  }

  // ---------------------------------------------------------------------
  // Run sessions
  // ---------------------------------------------------------------------

  function OpenRows(rows: map<string, RunRow>): set<string> {
    set id | id in rows && rows[id].endedAt.None?
  }

  /** `_close_run_session`: `ok` says whether the write succeeds. */
  function CloseSession(s: Sup, reason: string, now: int, ok: bool): (r: Sup)
    ensures SameBooks(s, r) && r.run == s.run && r.runId.None? && r.creds == s.creds
  {
    if s.runId.None? then s
    else
      var id := s.runId.value;
      if !ok then s.(runId := None, lost := s.lost + {id})
      else if id in s.rows then
        s.(runId := None, rows := s.rows[id := s.rows[id].(endedAt := Some(now), endReason := Some(reason))])
      else s.(runId := None)
  }

  /** An open row is closed at its start time. */
  function RecoveredRow(row: RunRow): RunRow {
    if row.endedAt.None? then row.(endedAt := Some(row.startedAt), endReason := Some("control_plane_crash")) else row
  }

  /** `_recover_interrupted_sessions`. */
  function Recovered(rows: map<string, RunRow>): map<string, RunRow> {
    map id | id in rows :: RecoveredRow(rows[id])
  }

  // ---------------------------------------------------------------------
  // Steps
  // ---------------------------------------------------------------------

  /** What a start meets: a new session id, or a failed write; the targets, or a
      failed read; how each worker fares; and whether the audit row after ARMED
      and the closing write of a failed start succeed. */
  datatype StartPlan = StartPlan(
    sessionId: Option<string>, pairs: Option<seq<Pair>>, fates: Fates, auditOk: bool, closeOk: bool, now: int)

  function PairIds(pairs: seq<Pair>): set<string> {
    set p | p in pairs :: p.target.id
  }

  /** The targets of a run are cached, and the index is begun anew. */
  function Loaded(s: Sup, pairs: seq<Pair>): Sup {
    s.(targets := CachedOf(pairs), index := map t | t in PairIds(pairs) :: {})
  }

  /** The body of the try block of `start_run`. */
  function TryStart(s: Sup, p: StartPlan): Outcome
    requires s.run == STARTING
  {
    if p.sessionId.None? then Outcome(s, true)
    else
      var id := p.sessionId.value;
      var begun := s.(runId := Some(id), rows := s.rows[id := RunRow(p.now, None, None)]);
      if p.pairs.None? then Outcome(begun, true)
      else
        var spawned := SpawnPairs(Loaded(begun, p.pairs.value), p.pairs.value, p.fates);
        if spawned.raised || spawned.s.run != STARTING then Outcome(spawned.s, true)
        else Outcome(SetRun(spawned.s, WORKERS_SPAWNED), !p.auditOk)
  }

  function Start(s: Sup, p: StartPlan): Outcome {
    if s.run != OFFLINE then Outcome(s, true)
    else
      var tried := TryStart(SetRun(s, START_REQUESTED), p);
      if !tried.raised then tried
      else
        var down := TearDown(tried.s, tried.s.workers);
        var failed := if Transition(down.run, UNRECOVERABLE_FAILED).Some? then SetRun(down, UNRECOVERABLE_FAILED) else down;
        Outcome(CloseSession(failed, "error", p.now, p.closeOk), true)
  }

  /** Why and when a stop is asked for, and whether the wipe and the closing write
      succeed. */
  datatype StopPlan = StopPlan(reason: string, wipeOk: bool, closeOk: bool, now: int)

  function StopRun(s: Sup, p: StopPlan): Sup {
    if s.run == OFFLINE || s.run == STOPPING || s.run == ERROR then s
    else
      var stopping := SetRun(s, STOP_REQUESTED);
      var down := TearDown(stopping, stopping.workers);
      var closed := CloseSession(Wiped(down, p.wipeOk), p.reason, p.now, p.closeOk);
      if Transition(closed.run, WORKERS_DRAINED).Some? then SetRun(closed, WORKERS_DRAINED) else closed
  }

  /** The test `enable_target` makes before it takes the lock. */
  predicate MayEnable(s: Sup) {
    s.run == STARTING || s.run == ARMED || s.run == LIVE
  }

  /** What it does under the lock; `found` is what reading the target gives, if
      it exists. */
  function EnableLocked(s: Sup, found: Option<Pair>, fates: Fates): Outcome {
    if found.None? then Outcome(s, false)
    else SpawnPair(Cached(s, found.value.target), found.value, fates)
  }

  /** The target is cached, with an index entry. */
  function Cached(s: Sup, t: Target): Sup {
    s.(targets := s.targets[t.id := t.perSession], index := s.index[t.id := IndexOf(s, t.id)])
  }

  function Enable(s: Sup, found: Option<Pair>, fates: Fates): Outcome {
    if MayEnable(s) then EnableLocked(s, found, fates) else Outcome(s, false)
  }

  function Disable(s: Sup, target: string): Sup {
    TearDown(s, IndexOf(s, target) * s.workers)
  }

  function PublishBegan(s: Sup): Sup { if s.run == ARMED then SetRun(s, OBS_PUBLISH_BEGAN) else s }

  function PublishEnded(s: Sup): Sup { if s.run == LIVE then SetRun(s, OBS_PUBLISH_ENDED) else s }

  /** A process that starts on the rows and credentials a former one left. */
  function Boot(rows: map<string, RunRow>, creds: set<string>): Sup {
    Sup(OFFLINE, {}, map[], map[], {}, None, Recovered(rows), [], map[], creds, {})
  }

  datatype Step =
    | DoStart(plan: StartPlan)
    | DoStop(stop: StopPlan)
    | DoEnable(found: Option<Pair>, fates: Fates)
    | DoDisable(target: string)
    | DoPublishBegan
    | DoPublishEnded
    | DoStore(target: string)      // a credential is saved
    | CrashAndBoot

  /** A session id is a fresh UUID. */
  predicate Possible(s: Sup, step: Step) {
    step.DoStart? && step.plan.sessionId.Some? ==> step.plan.sessionId.value !in s.rows
  }

  function Do(s: Sup, step: Step): Sup {
    match step
    case DoStart(plan) => Start(s, plan).s
    case DoStop(stop) => StopRun(s, stop)
    case DoEnable(found, fates) => Enable(s, found, fates).s
    case DoDisable(target) => Disable(s, target)
    case DoPublishBegan => PublishBegan(s)
    case DoPublishEnded => PublishEnded(s)
    case DoStore(target) => s.(creds := s.creds + {target})
    case CrashAndBoot => Boot(s.rows, s.creds)
  }

  // ---------------------------------------------------------------------
  // What every step keeps
  // ---------------------------------------------------------------------

  /** The books agree: a secret for each worker and no other, the index exact,
      and nothing in the registry that no live worker owns. */
  ghost predicate BooksAgree(workers: set<WorkerId>, secrets: map<WorkerId, string>,
                             index: map<string, set<WorkerId>>, registry: set<string>)
  {
    && secrets.Keys == workers
    && (forall w :: w in workers ==> w.targetId in index && w in index[w.targetId])
    && (forall t, w :: t in index && w in index[t] ==> w in workers && w.targetId == t)
    && registry <= SecretsOf(secrets, workers)
  }

  ghost predicate BooksOk(s: Sup) {
    BooksAgree(s.workers, s.secrets, s.index, s.registry)
  }

  /** The open rows are the current session's and those a failed write left. */
  ghost predicate SessionsAgree(rows: map<string, RunRow>, runId: Option<string>, lost: set<string>) {
    && OpenRows(rows) == lost + (if runId.Some? then {runId.value} else {})
    && (runId.Some? ==> runId.value !in lost)
  }

  ghost predicate SessionsOk(s: Sup) {
    SessionsAgree(s.rows, s.runId, s.lost)
  }

  ghost predicate Inv(s: Sup) {
    && BooksOk(s) && SessionsOk(s)
    && (s.run == OFFLINE || s.run == ERROR ==> s.workers == {} && s.runId.None?)
    && (s.run == ARMED || s.run == LIVE ==> s.runId.Some?)
    && s.run != STARTING && s.run != STOPPING
    && LegalRun(OFFLINE, s.published, s.run)
  }

  lemma SpawnOneKeepsBooks(s: Sup, w: WorkerId, key: string, fate: Fate)
    requires BooksOk(s)
    ensures BooksOk(SpawnOne(s, w, key, fate).s)
  {
    hide SecretsOf;
    if w !in s.workers && fate == Spawns && |key| >= MIN_SECRET_LENGTH {
      OneMoreSecret(s.secrets, s.workers, w, key);
    } else if w !in s.workers && fate == SpawnFails {
      assert s.secrets - {w} == s.secrets;
    }
  }

  lemma OneMoreSecret(secrets: map<WorkerId, string>, ws: set<WorkerId>, w: WorkerId, key: string)
    requires secrets.Keys == ws && w !in ws
    ensures SecretsOf(secrets, ws) + {key} <= SecretsOf(secrets[w := key], ws + {w})
  {
    var more := secrets[w := key];
    assert more[w] == key;
    forall k | k in SecretsOf(secrets, ws) ensures k in SecretsOf(more, ws + {w}) {
      var v :| v in ws && v in secrets && secrets[v] == k;
      assert more[v] == k;
    }
  }

  lemma {:induction false} SpawnRolesKeepsBooks(s: Sup, target: string, key: string, roles: seq<Role>, fates: Fates)
    requires BooksOk(s)
    ensures BooksOk(SpawnRoles(s, target, key, roles, fates).s)
    ensures SameRun(s, SpawnRoles(s, target, key, roles, fates).s)
    decreases |roles|
  {
    if roles != [] {
      var w := WorkerId(target, roles[0]);
      SpawnOneKeepsBooks(s, w, key, fates(w));
      var first := SpawnOne(s, w, key, fates(w));
      if !first.raised {
        SpawnRolesKeepsBooks(first.s, target, key, roles[1..], fates);
      }
    }
  }

  lemma {:induction false} SpawnPairsKeepsBooks(s: Sup, pairs: seq<Pair>, fates: Fates)
    requires BooksOk(s)
    ensures BooksOk(SpawnPairs(s, pairs, fates).s) && SameRun(s, SpawnPairs(s, pairs, fates).s)
    decreases |pairs|
  {
    if pairs != [] {
      SpawnPairKeepsBooks(s, pairs[0], fates);
      var first := SpawnPair(s, pairs[0], fates);
      if !first.raised {
        SpawnPairsKeepsBooks(first.s, pairs[1..], fates);
      }
    }
  }

  lemma SpawnPairKeepsBooks(s: Sup, p: Pair, fates: Fates)
    requires BooksOk(s)
    ensures BooksOk(SpawnPair(s, p, fates).s) && SameRun(s, SpawnPair(s, p, fates).s)
  {
    if p.target.enabled && p.key.Some? {
      SpawnRolesKeepsBooks(s, p.target.id, p.key.value, Roles(p.target), fates);
    }
  }

  lemma TearDownKeepsBooks(s: Sup, gone: set<WorkerId>)
    requires BooksOk(s)
    ensures BooksOk(TearDown(s, gone)) && SameRun(s, TearDown(s, gone))
  {
    var r := TearDown(s, gone);
    forall k | k in r.registry ensures k in SecretsOf(r.secrets, r.workers) {
      var v :| v in s.workers && v in s.secrets && s.secrets[v] == k;
      assert v !in gone;
      assert r.secrets[v] == k;
    }
  }

  lemma SetRunKeeps(s: Sup, a: RunAction)
    requires Transition(s.run, a).Some? && LegalRun(OFFLINE, s.published, s.run)
    ensures LegalRun(OFFLINE, SetRun(s, a).published, SetRun(s, a).run)
  {
    LegalRunAppend(OFFLINE, s.published, s.run, a);
  }

  lemma CloseKeepsSessions(s: Sup, reason: string, now: int, ok: bool)
    requires SessionsOk(s)
    ensures SessionsOk(CloseSession(s, reason, now, ok)) && CloseSession(s, reason, now, ok).runId.None?
  {
    if s.runId.Some? {
      var id := s.runId.value;
      assert id in OpenRows(s.rows);
      if ok {
        assert OpenRows(CloseSession(s, reason, now, ok).rows) == OpenRows(s.rows) - {id};
      }
    }
  }

  lemma OpenKeepsSessions(s: Sup, id: string, now: int)
    requires SessionsOk(s) && s.runId.None? && id !in s.rows
    ensures SessionsOk(s.(runId := Some(id), rows := s.rows[id := RunRow(now, None, None)]))
  {
    assert OpenRows(s.rows[id := RunRow(now, None, None)]) == OpenRows(s.rows) + {id};
  }

  lemma LoadedKeepsBooks(s: Sup, pairs: seq<Pair>)
    requires s.workers == {} && s.secrets.Keys == {} && s.registry == {}
    ensures BooksOk(Loaded(s, pairs))
  {
  }

  lemma CachedKeepsBooks(s: Sup, t: Target)
    requires BooksOk(s)
    ensures BooksOk(Cached(s, t))
  {
  }

  lemma RecoveryClosesAll(rows: map<string, RunRow>)
    ensures OpenRows(Recovered(rows)) == {}
  {
  }
}
