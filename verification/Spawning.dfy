/** Which workers, secrets and registered keys a start and an enable leave, and
    exactly when they raise (app/fanout/supervisor.py). */
module Spawning {
  import opened Options
  import opened RunStates
  import opened SupervisorModel
  import opened SupervisorTheorems

  /** The workers a pair asks for: one, and a backup exactly for YouTube with
      backup; none if it is not enabled or has no key. */
  function WorkersFor(p: Pair): set<WorkerId> {
    if !p.target.enabled || p.key.None? then {}
    else if p.target.youtube && p.target.backupEnabled then
      {WorkerId(p.target.id, PRIMARY), WorkerId(p.target.id, BACKUP)}
    else {WorkerId(p.target.id, PRIMARY)}
  }

  function WorkersOf(pairs: seq<Pair>): set<WorkerId> {
    set p, w | p in pairs && w in WorkersFor(p) :: w
  }

  function KeyOf(p: Pair): string {
    if p.key.Some? then p.key.value else ""
  }

  /** The attempt to start a worker with this key raises. */
  predicate CannotStart(key: string, w: WorkerId, fates: Fates) {
    |key| < 12 || fates(w) != Spawns
  }

  predicate Blocked(s: Sup, p: Pair, fates: Fates) {
    exists w :: w in WorkersFor(p) && w !in s.workers && CannotStart(KeyOf(p), w, fates)
  }

  /** The books with some more workers of one target. */
  function WithWorkers(s: Sup, target: string, more: set<WorkerId>, key: string): Sup {
    if more == {} then s
    else s.(workers := s.workers + more,
            secrets := s.secrets + map w | w in more :: key,
            registry := s.registry + {key},
            index := s.index[target := IndexOf(s, target) + more])
  }

  lemma OneSpawned(s: Sup, w: WorkerId, key: string, fate: Fate)
    ensures
      var r := SpawnOne(s, w, key, fate);
      && (r.raised <==> w !in s.workers && (|key| < 12 || fate != Spawns))
      && (!r.raised ==> r.s == WithWorkers(s, w.targetId, {w} - s.workers, key))
  {
    if w !in s.workers {
      assert {w} - s.workers == {w};
      var more := {w};
      assert s.secrets[w := key] == s.secrets + map v | v in more :: key;
    } else {
      assert {w} - s.workers == {};
    }
  }

  lemma TwoSpawned(s: Sup, target: string, v: WorkerId, w: WorkerId, key: string)
    requires v != w
    ensures
      var first := WithWorkers(s, target, {v} - s.workers, key);
      WithWorkers(first, target, {w} - first.workers, key) == WithWorkers(s, target, {v, w} - s.workers, key)
  {
    var first := WithWorkers(s, target, {v} - s.workers, key);
    var a, b, both := {v} - s.workers, {w} - first.workers, {v, w} - s.workers;
    assert b == {w} - s.workers && a + b == both;
    if a == {} {
      assert both == b;
    } else if b == {} {
      assert both == a;
    } else {
      WithTwice(s, target, a, b, key);
    }
  }

  lemma WithTwice(s: Sup, target: string, a: set<WorkerId>, b: set<WorkerId>, key: string)
    requires a != {} && b != {}
    ensures WithWorkers(WithWorkers(s, target, a, key), target, b, key) == WithWorkers(s, target, a + b, key)
  {
    assert s.secrets + (map w | w in a :: key) + (map w | w in b :: key) == s.secrets + map w | w in a + b :: key;
    assert s.workers + a + b == s.workers + (a + b);
    assert IndexOf(s, target) + a + b == IndexOf(s, target) + (a + b);
  }

  /** One target: the spawning raises if and only if some worker it asks for, and
      that is not running, cannot be started; otherwise exactly those workers are
      added, each with the pair's key, and the key is registered. */
  lemma PairSpawned(s: Sup, p: Pair, fates: Fates)
    ensures
      var r := SpawnPair(s, p, fates);
      && (r.raised <==> Blocked(s, p, fates))
      && (!r.raised ==>
            r.s == WithWorkers(s, p.target.id, WorkersFor(p) - s.workers, KeyOf(p)))
  {
    hide WithWorkers, SpawnOne;
    if p.target.enabled && p.key.Some? {
      var id, key := p.target.id, p.key.value;
      var v, w := WorkerId(id, PRIMARY), WorkerId(id, BACKUP);
      OneSpawned(s, v, key, fates(v));
      var first := SpawnOne(s, v, key, fates(v));
      if p.target.youtube && p.target.backupEnabled {
        assert [PRIMARY, BACKUP][1..] == [BACKUP] && [BACKUP][1..] == [];
        if !first.raised {
          OneSpawned(first.s, w, key, fates(w));
          assert w !in first.s.workers <==> w !in s.workers by { WithOthers(s, id, {v} - s.workers, key, w); }
          TwoSpawned(s, id, v, w, key);
          assert SpawnRoles(first.s, id, key, [BACKUP], fates) == SpawnOne(first.s, w, key, fates(w)) by {
            LastRole(first.s, id, key, BACKUP, fates);
          }
        }
      } else {
        assert [PRIMARY][1..] == [];
        LastRole(s, id, key, PRIMARY, fates);
      }
    } else {
      assert WorkersFor(p) - s.workers == {};
      assert WithWorkers(s, p.target.id, {}, KeyOf(p)) == s by {
        WithNone(s, p.target.id, KeyOf(p));
      }
    }
  }

  lemma WithNone(s: Sup, target: string, key: string)
    ensures WithWorkers(s, target, {}, key) == s
  {
  }

  lemma WithOthers(s: Sup, target: string, more: set<WorkerId>, key: string, w: WorkerId)
    requires w !in more
    ensures w in WithWorkers(s, target, more, key).workers <==> w in s.workers
  {
  }

  lemma LastRole(s: Sup, target: string, key: string, role: Role, fates: Fates)
    ensures
      var w := WorkerId(target, role);
      SpawnRoles(s, target, key, [role], fates) == SpawnOne(s, w, key, fates(w))
  {
    hide SpawnOne;
    assert [role][1..] == [];
  }

  // ---------------------------------------------------------------------
  // All pairs
  // ---------------------------------------------------------------------

  /** Pair `i` is the first to ask for worker `w`. */
  predicate FirstFor(pairs: seq<Pair>, w: WorkerId, i: nat): (b: bool)
    ensures b ==> i < |pairs|
  {
    i < |pairs| && w in WorkersFor(pairs[i]) && forall j :: 0 <= j < i ==> w !in WorkersFor(pairs[j])
  }

  ghost predicate SomeBlocked(s: Sup, pairs: seq<Pair>, fates: Fates) {
    exists i: nat, w :: FirstFor(pairs, w, i) && w !in s.workers && CannotStart(KeyOf(pairs[i]), w, fates)
  }

  /** `r` is `s` with exactly the workers asked for, each that is new with the key
      of the first pair to ask for it, and with exactly their keys registered. */
  ghost predicate AllSpawned(s: Sup, pairs: seq<Pair>, r: Sup) {
    && r.workers == s.workers + WorkersOf(pairs)
    && r.secrets.Keys == s.secrets.Keys + (r.workers - s.workers)
    && (forall w :: w in s.secrets && w in s.workers ==> r.secrets[w] == s.secrets[w])
    && (forall w, i: nat :: FirstFor(pairs, w, i) && w !in s.workers ==>
          w in r.secrets && r.secrets[w] == KeyOf(pairs[i]))
    && r.registry == s.registry + SecretsOf(r.secrets, r.workers - s.workers)
    && s.index.Keys <= r.index.Keys
  }

  /** What one pair adds. */
  lemma PairAdds(s: Sup, p: Pair, fates: Fates)
    requires !Blocked(s, p, fates) && s.secrets.Keys == s.workers
    ensures
      var r, more := SpawnPair(s, p, fates).s, WorkersFor(p) - s.workers;
      && r.workers == s.workers + WorkersFor(p) == s.workers + more && r.secrets.Keys == r.workers
      && (forall w :: w in s.workers ==> r.secrets[w] == s.secrets[w])
      && (forall w :: w in more ==> r.secrets[w] == KeyOf(p))
      && r.registry == s.registry + (if more == {} then {} else {KeyOf(p)})
      && s.index.Keys <= r.index.Keys
  {
    hide SpawnPair, Blocked, KeyOf, WorkersFor;
    PairSpawned(s, p, fates);
    assert s.workers + (WorkersFor(p) - s.workers) == s.workers + WorkersFor(p);
  }

  lemma FirstForRest(pairs: seq<Pair>, w: WorkerId, i: nat)
    requires pairs != []
    ensures FirstFor(pairs, w, i) <==>
            if i == 0 then w in WorkersFor(pairs[0])
            else w !in WorkersFor(pairs[0]) && FirstFor(pairs[1..], w, i - 1)
  {
    if i > 0 && w !in WorkersFor(pairs[0]) && FirstFor(pairs[1..], w, i - 1) {
      forall j | 0 <= j < i ensures w !in WorkersFor(pairs[j]) {
        if j > 0 {
          assert pairs[j] == pairs[1..][j - 1];
        }
      }
    }
    if i > 0 && FirstFor(pairs, w, i) {
      forall j | 0 <= j < i - 1 ensures w !in WorkersFor(pairs[1..][j]) {
        assert pairs[1..][j] == pairs[j + 1];
      }
    }
  }

  lemma WorkersOfRest(pairs: seq<Pair>)
    requires pairs != []
    ensures WorkersOf(pairs) == WorkersFor(pairs[0]) + WorkersOf(pairs[1..])
  {
    assert pairs == [pairs[0]] + pairs[1..];
    assert pairs[0] in pairs;
  }

  lemma SomeBlockedRest(s: Sup, pairs: seq<Pair>, fates: Fates)
    requires pairs != [] && !Blocked(s, pairs[0], fates) && s.secrets.Keys == s.workers
    ensures
      var first := SpawnPair(s, pairs[0], fates).s;
      SomeBlocked(s, pairs, fates) <==> SomeBlocked(first, pairs[1..], fates)
  {
    hide SpawnPair, CannotStart, WorkersFor, FirstFor, KeyOf;
    PairAdds(s, pairs[0], fates);
    var first := SpawnPair(s, pairs[0], fates).s;
    if SomeBlocked(s, pairs, fates) {
      var i: nat, w :| FirstFor(pairs, w, i) && w !in s.workers && CannotStart(KeyOf(pairs[i]), w, fates);
      FirstForRest(pairs, w, i);
      if i > 0 {
        assert pairs[1..][i - 1] == pairs[i] && FirstFor(pairs[1..], w, i - 1) && w !in first.workers;
      }
    }
    if SomeBlocked(first, pairs[1..], fates) {
      var i: nat, w :| FirstFor(pairs[1..], w, i) && w !in first.workers && CannotStart(KeyOf(pairs[1..][i]), w, fates);
      FirstForRest(pairs, w, i + 1);
      assert pairs[1..][i] == pairs[i + 1];
      assert FirstFor(pairs, w, i + 1);
    }
  }

  lemma AllSpawnedRest(s: Sup, pairs: seq<Pair>, fates: Fates, r: Sup)
    requires pairs != [] && !Blocked(s, pairs[0], fates) && s.secrets.Keys == s.workers
    requires AllSpawned(SpawnPair(s, pairs[0], fates).s, pairs[1..], r)
    ensures AllSpawned(s, pairs, r)
  {
    hide SpawnPair, FirstFor, WorkersFor, KeyOf, WorkersOf, SecretsOf, Blocked;
    var first := SpawnPair(s, pairs[0], fates).s;
    PairAdds(s, pairs[0], fates);
    WorkersOfRest(pairs);
    var more, added := WorkersFor(pairs[0]) - s.workers, r.workers - first.workers;
    forall w, i: nat | FirstFor(pairs, w, i) && w !in s.workers
      ensures w in r.secrets && r.secrets[w] == KeyOf(pairs[i])
    {
      FirstForRest(pairs, w, i);
      if i == 0 {
        assert w in more;
      } else {
        assert pairs[1..][i - 1] == pairs[i];
      }
    }
    assert r.workers - s.workers == more + added;
    SecretsOfSum(r.secrets, more, added);
    SecretsOfSame(r.secrets, more, KeyOf(pairs[0]));
  }

  lemma SecretsOfSum(secrets: map<WorkerId, string>, a: set<WorkerId>, b: set<WorkerId>)
    ensures SecretsOf(secrets, a + b) == SecretsOf(secrets, a) + SecretsOf(secrets, b)
  {
  }

  lemma SecretsOfSame(secrets: map<WorkerId, string>, ws: set<WorkerId>, key: string)
    requires forall w :: w in ws ==> w in secrets && secrets[w] == key
    ensures SecretsOf(secrets, ws) == if ws == {} then {} else {key}
  {
    if w :| w in ws {
      assert secrets[w] in SecretsOf(secrets, ws);
    }
  }

  /** All targets: the spawning raises if and only if some worker asked for, and
      not running, cannot be started with the key of the first to ask for it.
      Otherwise exactly the workers asked for are added. */
  lemma {:induction false} PairsSpawned(s: Sup, pairs: seq<Pair>, fates: Fates)
    requires s.secrets.Keys == s.workers
    ensures
      var r := SpawnPairs(s, pairs, fates);
      (r.raised <==> SomeBlocked(s, pairs, fates)) && (!r.raised ==> AllSpawned(s, pairs, r.s))
    decreases |pairs|
  {
    hide SpawnPair, SomeBlocked, AllSpawned, Blocked;
    if pairs == [] {
      NothingSpawned(s, fates);
    } else {
      PairSpawned(s, pairs[0], fates);
      if Blocked(s, pairs[0], fates) {
        FirstBlocked(s, pairs, fates);
      } else {
        var first := SpawnPair(s, pairs[0], fates).s;
        assert first.secrets.Keys == first.workers;
        SomeBlockedRest(s, pairs, fates);
        PairsSpawned(first, pairs[1..], fates);
        if !SpawnPairs(s, pairs, fates).raised {
          AllSpawnedRest(s, pairs, fates, SpawnPairs(s, pairs, fates).s);
        }
      }
    }
  }

  lemma NothingSpawned(s: Sup, fates: Fates)
    ensures !SomeBlocked(s, [], fates) && AllSpawned(s, [], s)
  {
    assert WorkersOf([]) == {} && s.workers - s.workers == {};
  }

  lemma FirstBlocked(s: Sup, pairs: seq<Pair>, fates: Fates)
    requires pairs != [] && Blocked(s, pairs[0], fates)
    ensures SomeBlocked(s, pairs, fates)
  {
    var w :| w in WorkersFor(pairs[0]) && w !in s.workers && CannotStart(KeyOf(pairs[0]), w, fates);
    assert FirstFor(pairs, w, 0);
  }

  // ---------------------------------------------------------------------
  // Starts and enables
  // ---------------------------------------------------------------------

  /** Pair `i` is the last of its target. */
  predicate LastFor(pairs: seq<Pair>, target: string, i: nat): (b: bool)
    ensures b ==> i < |pairs|
  {
    i < |pairs| && pairs[i].target.id == target && forall j :: i < j < |pairs| ==> pairs[j].target.id != target
  }

  /** Each target read is cached with the lifetime of its credential, and no other. */
  ghost predicate CachesTargets(pairs: seq<Pair>, targets: map<string, bool>) {
    && (forall t :: t in targets <==> exists i: nat :: LastFor(pairs, t, i))
    && (forall t, i: nat :: LastFor(pairs, t, i) ==> t in targets && targets[t] == pairs[i].target.perSession)
  }

  lemma {:induction false} TargetsAreCached(pairs: seq<Pair>)
    ensures CachesTargets(pairs, CachedOf(pairs))
    decreases |pairs|
  {
    if pairs != [] {
      var n := |pairs| - 1;
      TargetsAreCached(pairs[..n]);
      forall t, i: nat ensures LastFor(pairs, t, i) <==>
        (i == n && pairs[n].target.id == t) || (i < n && pairs[n].target.id != t && LastFor(pairs[..n], t, i))
      {
        LastForMore(pairs, t, i);
      }
      assert LastFor(pairs, pairs[n].target.id, n);
      forall t | t in CachedOf(pairs) && t != pairs[n].target.id ensures exists i: nat :: LastFor(pairs, t, i) {
        var i: nat :| LastFor(pairs[..n], t, i);
        assert LastFor(pairs, t, i);
      }
    }
  }

  lemma LastForMore(pairs: seq<Pair>, t: string, i: nat)
    requires pairs != []
    ensures
      var n := |pairs| - 1;
      LastFor(pairs, t, i) <==>
        (i == n && pairs[n].target.id == t) || (i < n && pairs[n].target.id != t && LastFor(pairs[..n], t, i))
  {
    var n := |pairs| - 1;
    if i < n && LastFor(pairs, t, i) {
      assert forall j :: i < j < n ==> pairs[..n][j] == pairs[j];
    }
    if i < n && pairs[n].target.id != t && LastFor(pairs[..n], t, i) {
      forall j | i < j < |pairs| ensures pairs[j].target.id != t {
        assert j < n ==> pairs[..n][j] == pairs[j];
      }
    }
  }

  /** What a start of an OFFLINE supervisor finds before it spawns. */
  function Ready(s: Sup, p: StartPlan): Sup
    requires s.run == OFFLINE && p.sessionId.Some? && p.pairs.Some?
  {
    var starting := SetRun(s, START_REQUESTED);
    var id := p.sessionId.value;
    Loaded(starting.(runId := Some(id), rows := s.rows[id := RunRow(p.now, None, None)]), p.pairs.value)
  }

  lemma ReadyShape(s: Sup, p: StartPlan)
    requires Inv(s) && s.run == OFFLINE && p.sessionId.Some? && p.pairs.Some?
    ensures
      var ready := Ready(s, p);
      && ready.workers == {} && ready.secrets == map[] && ready.registry == {} && ready.run == STARTING
      && BooksOk(ready) && ready.index.Keys == PairIds(p.pairs.value)
      && ready.published == s.published + [RunChange(STARTING, OFFLINE)]
      && CachesTargets(p.pairs.value, ready.targets)
  {
    assert s.secrets.Keys == {} && s.registry == {};
    TargetsAreCached(p.pairs.value);
  }

  lemma StartIs(s: Sup, p: StartPlan)
    requires Inv(s) && s.run == OFFLINE && p.sessionId.Some? && p.pairs.Some?
    ensures
      var spawned := SpawnPairs(Ready(s, p), p.pairs.value, p.fates);
      && spawned.s.run == STARTING
      && (Start(s, p).raised <==> spawned.raised || !p.auditOk)
      && (!Start(s, p).raised ==> Start(s, p).s == SetRun(spawned.s, WORKERS_SPAWNED))
  {
    ReadyShape(s, p);
    SpawnPairsKeepsBooks(Ready(s, p), p.pairs.value, p.fates);
    hide SpawnPairs, TearDown, CloseSession, Loaded;
  }

  /** A start outside OFFLINE raises and changes nothing. One in OFFLINE raises if and
      only if the session cannot be opened, the targets cannot be read, some worker
      asked for cannot be started, or the audit row cannot be written. If it does not raise, the supervisor is
      ARMED; its workers are exactly those asked for, each with the key of its
      target; and exactly their keys are registered. */
  lemma StartSpawnsAll(s: Sup, p: StartPlan)
    requires Inv(s)
    ensures s.run != OFFLINE ==> Start(s, p) == Outcome(s, true)
    ensures s.run == OFFLINE ==>
      var r := Start(s, p);
      && (r.raised <==>
            || p.sessionId.None? || p.pairs.None? || !p.auditOk
            || exists i: nat, w :: FirstFor(p.pairs.value, w, i) && CannotStart(KeyOf(p.pairs.value[i]), w, p.fates))
      && (!r.raised ==>
            && r.s.run == ARMED
            && r.s.workers == WorkersOf(p.pairs.value) == r.s.secrets.Keys
            && (forall w, i: nat :: FirstFor(p.pairs.value, w, i) ==> r.s.secrets[w] == KeyOf(p.pairs.value[i]))
            && r.s.registry == SecretsOf(r.s.secrets, r.s.workers)
            && (forall t :: t in PairIds(p.pairs.value) ==>
                  t in r.s.index && r.s.index[t] == set w | w in r.s.workers && w.targetId == t)
            && CachesTargets(p.pairs.value, r.s.targets)
            && r.s.published == s.published + [RunChange(STARTING, OFFLINE), RunChange(ARMED, STARTING)])
  {
    if s.run != OFFLINE || p.sessionId.None? || p.pairs.None? {
      StartWithout(s, p);
    } else {
      var pairs := p.pairs.value;
      var ready := Ready(s, p);
      ReadyShape(s, p);
      StartIs(s, p);
      PairsSpawned(ready, pairs, p.fates);
      SpawnPairsKeepsBooks(ready, pairs, p.fates);
      var spawned := SpawnPairs(ready, pairs, p.fates);
      hide Start, SpawnPairs, Ready, FirstFor, WorkersFor, CannotStart, CachesTargets;
      if !spawned.raised {
        StartedBooks(spawned.s, ready, pairs);
      }
    }
  }

  lemma StartWithout(s: Sup, p: StartPlan)
    requires s.run != OFFLINE || p.sessionId.None? || p.pairs.None?
    ensures Start(s, p).raised && (s.run != OFFLINE ==> Start(s, p).s == s)
  {
  }

  lemma StartedBooks(r: Sup, ready: Sup, pairs: seq<Pair>)
    requires AllSpawned(ready, pairs, r) && BooksOk(r) && SameRun(ready, r)
    requires ready.workers == {} && ready.secrets == map[] && ready.registry == {} && ready.index.Keys == PairIds(pairs)
    ensures r.workers == WorkersOf(pairs) == r.secrets.Keys && r.registry == SecretsOf(r.secrets, r.workers)
    ensures forall t :: t in PairIds(pairs) ==> t in r.index && r.index[t] == set w | w in r.workers && w.targetId == t
  {
    hide WorkersOf, SecretsOf, PairIds;
    assert r.workers - {} == r.workers;
  }

  /** An enable outside an active run, or of a target that is not there, changes
      nothing. Otherwise it raises if and only if some worker the target asks for,
      and that is not running, cannot be started; if it does not raise, exactly
      the missing workers are added, with the target's key, which is registered. */
  lemma EnableSpawnsTarget(s: Sup, found: Option<Pair>, fates: Fates)
    requires Inv(s)
    ensures
      var r := Enable(s, found, fates);
      if (s.run != ARMED && s.run != LIVE) || found.None? then r == Outcome(s, false)
      else
        var p := found.value;
        && r.s.targets == s.targets[p.target.id := p.target.perSession]
        && (r.raised <==> Blocked(s, p, fates))
        && (!r.raised ==>
              && r.s.workers == s.workers + WorkersFor(p) == r.s.secrets.Keys
              && (forall w :: w in s.workers ==> r.s.secrets[w] == s.secrets[w])
              && (forall w :: w in WorkersFor(p) - s.workers ==> r.s.secrets[w] == KeyOf(p))
              && r.s.registry == s.registry + (if WorkersFor(p) <= s.workers then {} else {KeyOf(p)}))
  {
    if (s.run == ARMED || s.run == LIVE) && found.Some? {
      var p := found.value;
      var cached := Cached(s, p.target);
      CachedKeepsBooks(s, p.target);
      PairSpawned(cached, p, fates);
      SpawnPairKeepsBooks(cached, p, fates);
      assert Blocked(cached, p, fates) <==> Blocked(s, p, fates);
      if !Blocked(s, p, fates) {
        PairAdds(cached, p, fates);
      }
    }
  }
}
