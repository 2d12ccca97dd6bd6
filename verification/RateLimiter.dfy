/** The paired sliding-window login limiter of app/auth/rate_limit.py. */
module RateLimiter {
  import opened Options
  import opened Reals
  import opened SlidingWindow

  datatype Decision = Decision(allowed: bool, retryAfterSeconds: int)

  function Ceil(x: real): (n: int)
    ensures x <= n as real < x + 1.0
  {
    -((-x).Floor)
  }

  function Prune(bucket: seq<real>, window: real, now: real): seq<real> {
    Evict(DropUpTo, bucket, now - window)
  }

  function OldestExpiry(bucket: seq<real>, window: real, now: real): real
    requires bucket != []
  {
    bucket[0] + window - now
  }

  /** The decision on two pruned buckets. */
  function Decide(limit: nat, window: real, byIp: seq<real>, byUser: seq<real>, now: real): (d: Decision)
    requires limit >= 1
    ensures d.allowed <==> |byIp| < limit && |byUser| < limit
  {
    var ipFull, userFull := |byIp| >= limit, |byUser| >= limit;
    if !ipFull && !userFull then Decision(true, 0)
    else
      var seconds := if ipFull && userFull then
                       Max(OldestExpiry(byIp, window, now), OldestExpiry(byUser, window, now))
                     else if ipFull then OldestExpiry(byIp, window, now)
                     else OldestExpiry(byUser, window, now);
      var n := Ceil(seconds);
      Decision(false, if n < 1 then 1 else n)
  }

  function Lookup(m: map<string, seq<real>>, key: string): seq<real> {
    if key in m then m[key] else []
  }

  /** The limiter's two tables of buckets, with every failure ever recorded under
      each key and the last time read. */
  datatype Limiter = Limiter(
    limit: nat,
    window: real,
    byIp: map<string, seq<real>>,
    byUser: map<string, seq<real>>,
    ipLog: map<string, seq<real>>,
    userLog: map<string, seq<real>>,
    clock: real)

  function NewLimiter(limit: nat, window: real): Limiter {
    Limiter(limit, window, map[], map[], map[], map[], 0.0)
  }

  /** `check` on the tables: both buckets are pruned. */
  function Checked(l: Limiter, ip: string, user: string, now: real): Limiter {
    l.(byIp := l.byIp[ip := Prune(Lookup(l.byIp, ip), l.window, now)],
       byUser := l.byUser[user := Prune(Lookup(l.byUser, user), l.window, now)],
       clock := now)
  }

  function DecisionAt(l: Limiter, ip: string, user: string, now: real): (d: Decision)
    requires l.limit >= 1
  {
    Decide(l.limit, l.window,
           Prune(Lookup(l.byIp, ip), l.window, now), Prune(Lookup(l.byUser, user), l.window, now), now)
  }

  /** `record_failure` on the tables. */
  function Failed(l: Limiter, ip: string, user: string, now: real): Limiter {
    l.(byIp := l.byIp[ip := Prune(Lookup(l.byIp, ip), l.window, now) + [now]],
       byUser := l.byUser[user := Prune(Lookup(l.byUser, user), l.window, now) + [now]],
       ipLog := l.ipLog[ip := Lookup(l.ipLog, ip) + [now]],
       userLog := l.userLog[user := Lookup(l.userLog, user) + [now]],
       clock := now)
  }

  ghost predicate ValidLimiter(l: Limiter) {
    && l.limit >= 1 && l.window > 0.0
    && AllRecorded(l.ipLog, l.byIp, l.window, l.clock)
    && AllRecorded(l.userLog, l.byUser, l.window, l.clock)
  }

  class LoginRateLimiter {
    const limit: nat
    const window: real
    const normalize: string -> string
    var byIp: map<string, seq<real>>
    var byUsername: map<string, seq<real>>
    ghost var ipLog: map<string, seq<real>>
    ghost var userLog: map<string, seq<real>>
    ghost var clock: real

    ghost function Abs(): Limiter
      reads this
    {
      Limiter(limit, window, byIp, byUsername, ipLog, userLog, clock)
    }

    ghost predicate Valid()
      reads this
    {
      ValidLimiter(Abs())
    }

    constructor (limit: nat, window: real, normalize: string -> string)
      requires limit >= 1 && window > 0.0
      ensures Valid() && Abs() == NewLimiter(limit, window) && this.normalize == normalize
    {
      this.limit, this.window, this.normalize := limit, window, normalize;
      byIp, byUsername := map[], map[];
      ipLog, userLog, clock := map[], map[], 0.0;
    }

    /** Prunes both buckets and decides. What is left in them is exactly what the
        whole log has of the last `window` seconds. */
    method Check(ip: string, username: string, now: real) returns (d: Decision)
      requires Valid() && clock <= now
      modifies this
      ensures Valid() && Abs() == Checked(old(Abs()), ip, normalize(username), now)
      ensures d == DecisionAt(old(Abs()), ip, normalize(username), now)
      ensures byIp[ip] == Live(DropUpTo, Lookup(ipLog, ip), now - window)
      ensures byUsername[normalize(username)] == Live(DropUpTo, Lookup(userLog, normalize(username)), now - window)
      ensures d.allowed <==> |byIp[ip]| < limit && |byUsername[normalize(username)]| < limit
    {
      var userKey := normalize(username);
      PruneBuckets(ip, userKey, now);
      d := DecideOn(byIp[ip], byUsername[userKey], now);
    }

    method PruneBuckets(ip: string, userKey: string, now: real)
      requires Valid() && clock <= now
      modifies this
      ensures Valid() && Abs() == Checked(old(Abs()), ip, userKey, now)
      ensures byIp[ip] == Live(DropUpTo, Lookup(ipLog, ip), now - window)
      ensures byUsername[userKey] == Live(DropUpTo, Lookup(userLog, userKey), now - window)
    {
      hide ValidLimiter, Prune, Live, Lookup;
      ghost var l := Abs();
      CheckedKeepsValid(l, ip, userKey, now);
      var ipBucket := Prune(Lookup(byIp, ip), window, now);
      var userBucket := Prune(Lookup(byUsername, userKey), window, now);
      byIp, byUsername := byIp[ip := ipBucket], byUsername[userKey := userBucket];
      clock := now;
      assert Abs() == Checked(l, ip, userKey, now);
    }

    method DecideOn(ipBucket: seq<real>, userBucket: seq<real>, now: real) returns (d: Decision)
      requires limit >= 1
      ensures d == Decide(limit, window, ipBucket, userBucket, now)
    {
      var ipFull, userFull := |ipBucket| >= limit, |userBucket| >= limit;
      if !ipFull && !userFull {
        return Decision(true, 0);
      }
      var seconds := if ipFull then OldestExpiry(ipBucket, window, now) else OldestExpiry(userBucket, window, now);
      if ipFull && userFull {
        seconds := Max(seconds, OldestExpiry(userBucket, window, now));
      }
      var whole := Ceil(seconds);
      d := Decision(false, if whole < 1 then 1 else whole);
    }

    /** Records one failed attempt under both keys. */
    method RecordFailure(ip: string, username: string, now: real)
      requires Valid() && clock <= now
      modifies this
      ensures Valid() && Abs() == Failed(old(Abs()), ip, normalize(username), now)
      ensures byIp[ip] == Live(DropUpTo, Lookup(old(ipLog), ip), now - window) + [now]
      ensures
        var key := normalize(username);
        byUsername[key] == Live(DropUpTo, Lookup(old(userLog), key), now - window) + [now]
    {
      hide ValidLimiter, Prune, Live, Lookup;
      ghost var l := Abs();
      var userKey := normalize(username);
      FailedKeepsValid(l, ip, userKey, now);
      var ipBucket := Prune(Lookup(byIp, ip), window, now) + [now];
      var userBucket := Prune(Lookup(byUsername, userKey), window, now) + [now];
      byIp, byUsername := byIp[ip := ipBucket], byUsername[userKey := userBucket];
      ipLog := ipLog[ip := Lookup(ipLog, ip) + [now]];
      userLog := userLog[userKey := Lookup(userLog, userKey) + [now]];
      clock := now;
      assert Abs() == Failed(l, ip, userKey, now);
    }
  }

  ghost predicate AllRecorded(log: map<string, seq<real>>, buckets: map<string, seq<real>>, window: real, now: real) {
    forall k :: Recorded(Lookup(log, k), Lookup(buckets, k), window, now)
  }

  lemma LookupUpdated(m: map<string, seq<real>>, key: string, v: seq<real>, k: string)
    ensures Lookup(m[key := v], k) == if k == key then v else Lookup(m, k)
  {
  }

  lemma PruneKeeps(log: map<string, seq<real>>, buckets: map<string, seq<real>>, key: string,
                   window: real, before: real, now: real)
    requires AllRecorded(log, buckets, window, before) && before <= now
    ensures Prune(Lookup(buckets, key), window, now) == Live(DropUpTo, Lookup(log, key), now - window)
    ensures AllRecorded(log, buckets[key := Prune(Lookup(buckets, key), window, now)], window, now)
  {
    hide Lookup, Recorded, Prune, Live;
    var kept := Prune(Lookup(buckets, key), window, now);
    PrunedIsLive(Lookup(log, key), Lookup(buckets, key), window, before, now);
    forall k ensures Recorded(Lookup(log, k), Lookup(buckets[key := kept], k), window, now) {
      RecordedLater(Lookup(log, k), Lookup(buckets, k), window, before, now);
      LookupUpdated(buckets, key, kept, k);
    }
  }

  lemma AppendKeeps(log: map<string, seq<real>>, buckets: map<string, seq<real>>, key: string,
                    window: real, before: real, now: real)
    requires AllRecorded(log, buckets, window, before) && before <= now
    ensures Prune(Lookup(buckets, key), window, now) == Live(DropUpTo, Lookup(log, key), now - window)
    ensures AllRecorded(log[key := Lookup(log, key) + [now]],
                        buckets[key := Prune(Lookup(buckets, key), window, now) + [now]], window, now)
  {
    hide Lookup, Recorded, Prune, Live;
    var kept := Prune(Lookup(buckets, key), window, now);
    PrunedIsLive(Lookup(log, key), Lookup(buckets, key), window, before, now);
    var log', buckets' := log[key := Lookup(log, key) + [now]], buckets[key := kept + [now]];
    forall k ensures Recorded(Lookup(log', k), Lookup(buckets', k), window, now) {
      RecordedLater(Lookup(log, k), Lookup(buckets, k), window, before, now);
      LookupUpdated(log, key, Lookup(log, key) + [now], k);
      LookupUpdated(buckets, key, kept + [now], k);
      if k == key {
        RecordedAppend(Lookup(log, key), kept, window, now);
      }
    }
  }

  /** A bucket stands for a whole log of failures up to `now`. */
  ghost predicate Recorded(log: seq<real>, bucket: seq<real>, window: real, now: real) {
    && Sorted(log)
    && (forall i :: 0 <= i < |log| ==> log[i] <= now)
    && Retains(DropUpTo, log, bucket, now - window)
  }

  lemma PrunedIsLive(log: seq<real>, bucket: seq<real>, window: real, before: real, now: real)
    requires Recorded(log, bucket, window, before) && before <= now
    ensures Prune(bucket, window, now) == Live(DropUpTo, log, now - window)
  {
    RetainsIsExact(DropUpTo, log, bucket, before - window, now - window);
  }

  lemma RecordedLater(log: seq<real>, bucket: seq<real>, window: real, before: real, now: real)
    requires Recorded(log, bucket, window, before) && before <= now
    ensures Recorded(log, bucket, window, now)
    ensures Recorded(log, Prune(bucket, window, now), window, now)
  {
    var h, c := before - window, now - window;
    assert Retains(DropUpTo, log, bucket, c) by { RetainsLater(DropUpTo, log, bucket, h, c); }
    RetainsTrimmed(DropUpTo, log, bucket, c);
  }

  lemma RecordedAppend(log: seq<real>, bucket: seq<real>, window: real, now: real)
    requires Recorded(log, bucket, window, now)
    ensures Recorded(log + [now], bucket + [now], window, now)
  {
    RetainsAppend(DropUpTo, log, bucket, now - window, now);
  }

  lemma CheckedKeepsValid(l: Limiter, ip: string, user: string, now: real)
    requires ValidLimiter(l) && l.clock <= now
    ensures ValidLimiter(Checked(l, ip, user, now))
    ensures Checked(l, ip, user, now).byIp[ip] == Live(DropUpTo, Lookup(l.ipLog, ip), now - l.window)
    ensures Checked(l, ip, user, now).byUser[user] == Live(DropUpTo, Lookup(l.userLog, user), now - l.window)
  {
    hide Prune, Live, Lookup, AllRecorded;
    PruneKeeps(l.ipLog, l.byIp, ip, l.window, l.clock, now);
    PruneKeeps(l.userLog, l.byUser, user, l.window, l.clock, now);
  }

  lemma FailedKeepsValid(l: Limiter, ip: string, user: string, now: real)
    requires ValidLimiter(l) && l.clock <= now
    ensures ValidLimiter(Failed(l, ip, user, now))
    ensures Failed(l, ip, user, now).byIp[ip] == Live(DropUpTo, Lookup(l.ipLog, ip), now - l.window) + [now]
    ensures Failed(l, ip, user, now).byUser[user] == Live(DropUpTo, Lookup(l.userLog, user), now - l.window) + [now]
  {
    hide Prune, Live, Lookup, AllRecorded;
    AppendKeeps(l.ipLog, l.byIp, ip, l.window, l.clock, now);
    AppendKeeps(l.userLog, l.byUser, user, l.window, l.clock, now);
  }

  // ---------------------------------------------------------------------
  // retry_after
  // ---------------------------------------------------------------------

  /** A pruned bucket: sorted failures inside the window. */
  ghost predicate Pruned(bucket: seq<real>, window: real, now: real) {
    Sorted(bucket) && forall i :: 0 <= i < |bucket| ==> now - window < bucket[i] <= now
  }

  /** The decision a later check takes if nothing is recorded in between. */
  function DecideLater(limit: nat, window: real, byIp: seq<real>, byUser: seq<real>, now: real): Decision
    requires limit >= 1
  {
    Decide(limit, window, Prune(byIp, window, now), Prune(byUser, window, now), now)
  }

  /** By the time `at`, so many entries of the bucket have expired that fewer
      than `limit` are left. */
  predicate SlotFree(limit: nat, window: real, bucket: seq<real>, at: real)
    requires limit >= 1
  {
    |bucket| < limit || bucket[|bucket| - limit] + window <= at
  }

  lemma PrunedBelowLimit(limit: nat, window: real, bucket: seq<real>, at: real)
    requires limit >= 1 && Sorted(bucket)
    ensures |Prune(bucket, window, at)| < limit <==> SlotFree(limit, window, bucket, at)
  {
    EvictShape(DropUpTo, bucket, at - window);
  }

  lemma FullUntilOldestExpires(bucket: seq<real>, window: real, now: real, later: real)
    requires bucket != [] && later - now < OldestExpiry(bucket, window, now)
    ensures Prune(bucket, window, later) == bucket
  {
  }

  /** A denied check's `retry_after` is never too long: a check one second
      earlier is still denied. It is long enough, and so exact, if and only if by
      then both buckets have a slot free, with no failure recorded meanwhile. */
  lemma RetryAfterIsExactIff(limit: nat, window: real, byIp: seq<real>, byUser: seq<real>, now: real)
    requires limit >= 1 && Pruned(byIp, window, now) && Pruned(byUser, window, now)
    ensures
      var d := Decide(limit, window, byIp, byUser, now);
      var due := now + d.retryAfterSeconds as real;
      !d.allowed ==>
        && d.retryAfterSeconds >= 1
        && !DecideLater(limit, window, byIp, byUser, due - 1.0).allowed
        && (DecideLater(limit, window, byIp, byUser, due).allowed <==>
              SlotFree(limit, window, byIp, due) && SlotFree(limit, window, byUser, due))
  {
    var d := Decide(limit, window, byIp, byUser, now);
    if !d.allowed {
      var due := now + d.retryAfterSeconds as real;
      PrunedBelowLimit(limit, window, byIp, due);
      PrunedBelowLimit(limit, window, byUser, due);
      var full := WorstBucket(limit, window, byIp, byUser, now);
      FullUntilOldestExpires(full, window, now, due - 1.0);
    }
  }

  /** The full bucket whose oldest entry sets `retry_after`. */
  lemma WorstBucket(limit: nat, window: real, byIp: seq<real>, byUser: seq<real>, now: real) returns (full: seq<real>)
    requires limit >= 1 && Pruned(byIp, window, now) && Pruned(byUser, window, now)
    requires !Decide(limit, window, byIp, byUser, now).allowed
    ensures (full == byIp || full == byUser) && |full| >= limit
    ensures Decide(limit, window, byIp, byUser, now).retryAfterSeconds as real - 1.0 < OldestExpiry(full, window, now)
    ensures forall b :: b == byIp || b == byUser ==> |b| >= limit ==>
      OldestExpiry(b, window, now) <= Decide(limit, window, byIp, byUser, now).retryAfterSeconds as real
  {
    full := if |byIp| < limit then byUser
            else if |byUser| < limit then byIp
            else if OldestExpiry(byIp, window, now) < OldestExpiry(byUser, window, now) then byUser
            else byIp;
  }

  /** With no bucket over the limit the condition holds by itself. */
  lemma WithinLimitIsExact(limit: nat, window: real, byIp: seq<real>, byUser: seq<real>, now: real)
    requires limit >= 1 && Pruned(byIp, window, now) && Pruned(byUser, window, now)
    requires |byIp| <= limit && |byUser| <= limit
    ensures
      var d := Decide(limit, window, byIp, byUser, now);
      var due := now + d.retryAfterSeconds as real;
      !d.allowed ==>
        && DecideLater(limit, window, byIp, byUser, due).allowed
        && !DecideLater(limit, window, byIp, byUser, due - 1.0).allowed
  {
    RetryAfterIsExactIff(limit, window, byIp, byUser, now);
    if !Decide(limit, window, byIp, byUser, now).allowed {
      var full := WorstBucket(limit, window, byIp, byUser, now);
    }
  }

  // ---------------------------------------------------------------------
  // Attempts one after the other
  // ---------------------------------------------------------------------

  /** One login: it is checked, and if it is let in and fails, the failure is
      recorded. */
  datatype Attempt = Attempt(ip: string, user: string, checkedAt: real, failedAt: Option<real>)

  predicate InTime(l: Limiter, a: Attempt) {
    l.clock <= a.checkedAt && (a.failedAt.Some? ==> a.checkedAt <= a.failedAt.value)
  }

  function Tried(l: Limiter, a: Attempt): Limiter
    requires l.limit >= 1
  {
    var checked := Checked(l, a.ip, a.user, a.checkedAt);
    if DecisionAt(l, a.ip, a.user, a.checkedAt).allowed && a.failedAt.Some?
    then Failed(checked, a.ip, a.user, a.failedAt.value) else checked
  }

  /** What a sequence of attempts leads to, each over before the next begins. */
  ghost function AfterAttempts(limit: nat, window: real, attempts: seq<Attempt>): (l: Option<Limiter>)
    requires limit >= 1
    ensures l.Some? ==> l.value.limit == limit && l.value.window == window
    decreases |attempts|
  {
    if attempts == [] then Some(NewLimiter(limit, window))
    else
      var n := |attempts| - 1;
      match AfterAttempts(limit, window, attempts[..n])
      case None => None
      case Some(l) => if InTime(l, attempts[n]) then Some(Tried(l, attempts[n])) else None
  }

  ghost predicate WithinLimit(limit: nat, buckets: map<string, seq<real>>) {
    forall k :: |Lookup(buckets, k)| <= limit
  }

  ghost predicate Kept(l: Limiter) {
    ValidLimiter(l) && WithinLimit(l.limit, l.byIp) && WithinLimit(l.limit, l.byUser)
  }

  lemma UpdatedWithinLimit(limit: nat, buckets: map<string, seq<real>>, key: string, bucket: seq<real>)
    requires WithinLimit(limit, buckets) && |bucket| <= limit
    ensures WithinLimit(limit, buckets[key := bucket])
  {
    var after := buckets[key := bucket];
    forall k ensures |Lookup(after, k)| <= limit {
      LookupUpdated(buckets, key, bucket, k);
    }
  }

  lemma CheckKeepsLimit(l: Limiter, ip: string, user: string, now: real)
    requires Kept(l) && l.clock <= now
    ensures
      var r := Checked(l, ip, user, now);
      && Kept(r)
      && (DecisionAt(l, ip, user, now).allowed ==> |Lookup(r.byIp, ip)| < l.limit && |Lookup(r.byUser, user)| < l.limit)
  {
    hide Prune, AllRecorded;
    CheckedKeepsValid(l, ip, user, now);
    var ipBucket, userBucket := Prune(Lookup(l.byIp, ip), l.window, now), Prune(Lookup(l.byUser, user), l.window, now);
    NeverGrows(Lookup(l.byIp, ip), l.window, now);
    NeverGrows(Lookup(l.byUser, user), l.window, now);
    UpdatedWithinLimit(l.limit, l.byIp, ip, ipBucket);
    UpdatedWithinLimit(l.limit, l.byUser, user, userBucket);
  }

  lemma FailureKeepsLimit(l: Limiter, ip: string, user: string, now: real)
    requires Kept(l) && l.clock <= now && |Lookup(l.byIp, ip)| < l.limit && |Lookup(l.byUser, user)| < l.limit
    ensures Kept(Failed(l, ip, user, now))
  {
    hide Prune, AllRecorded, Lookup;
    FailedKeepsValid(l, ip, user, now);
    NeverGrows(Lookup(l.byIp, ip), l.window, now);
    NeverGrows(Lookup(l.byUser, user), l.window, now);
    UpdatedWithinLimit(l.limit, l.byIp, ip, Prune(Lookup(l.byIp, ip), l.window, now) + [now]);
    UpdatedWithinLimit(l.limit, l.byUser, user, Prune(Lookup(l.byUser, user), l.window, now) + [now]);
  }

  lemma NeverGrows(bucket: seq<real>, window: real, now: real)
    ensures |Prune(bucket, window, now)| <= |bucket|
  {
  }

  lemma TriedKeepsLimit(l: Limiter, a: Attempt)
    requires Kept(l) && InTime(l, a)
    ensures Kept(Tried(l, a))
  {
    assert l.limit >= 1;
    hide Kept, Prune, Lookup, Decide;
    CheckKeepsLimit(l, a.ip, a.user, a.checkedAt);
    if DecisionAt(l, a.ip, a.user, a.checkedAt).allowed && a.failedAt.Some? {
      FailureKeepsLimit(Checked(l, a.ip, a.user, a.checkedAt), a.ip, a.user, a.failedAt.value);
    }
  }

  lemma {:induction false} AttemptsKeepLimit(limit: nat, window: real, attempts: seq<Attempt>)
    requires limit >= 1 && window > 0.0
    ensures
      var l := AfterAttempts(limit, window, attempts);
      l.Some? ==> Kept(l.value)
    decreases |attempts|
  {
    if attempts != [] {
      var n := |attempts| - 1;
      AttemptsKeepLimit(limit, window, attempts[..n]);
      var before := AfterAttempts(limit, window, attempts[..n]);
      if before.Some? && InTime(before.value, attempts[n]) {
        TriedKeepsLimit(before.value, attempts[n]);
      }
    }
  }

  lemma PrunedShape(log: seq<real>, bucket: seq<real>, window: real, before: real, now: real)
    requires Recorded(log, bucket, window, before) && before <= now
    ensures Pruned(Prune(bucket, window, now), window, now)
  {
    EvictShape(DropUpTo, bucket, now - window);
  }

  lemma BucketAt(limit: nat, log: map<string, seq<real>>, buckets: map<string, seq<real>>, key: string,
                 window: real, before: real, now: real)
    requires AllRecorded(log, buckets, window, before) && WithinLimit(limit, buckets) && before <= now
    ensures
      var bucket := Prune(Lookup(buckets, key), window, now);
      && bucket == Live(DropUpTo, Lookup(log, key), now - window)
      && Pruned(bucket, window, now) && |bucket| <= limit
  {
    assert Recorded(Lookup(log, key), Lookup(buckets, key), window, before);
    assert |Lookup(buckets, key)| <= limit;
    PrunedIsLive(Lookup(log, key), Lookup(buckets, key), window, before, now);
    PrunedShape(Lookup(log, key), Lookup(buckets, key), window, before, now);
    NeverGrows(Lookup(buckets, key), window, now);
  }

  /** After any sequence of attempts, whoever checks next and whenever: each of
      the two buckets holds exactly the failures ever recorded under its key in
      the last `window` seconds, never more than the limit, and if the check is
      denied, its `retry_after` is exact to the second. */
  lemma SequentialAttemptsAreExact(limit: nat, window: real, attempts: seq<Attempt>, ip: string, user: string, now: real)
    requires limit >= 1 && window > 0.0
    ensures
      var l := AfterAttempts(limit, window, attempts);
      l.Some? && l.value.clock <= now ==>
        var byIp := Prune(Lookup(l.value.byIp, ip), window, now);
        var byUser := Prune(Lookup(l.value.byUser, user), window, now);
        var d := DecisionAt(l.value, ip, user, now);
        var due := now + d.retryAfterSeconds as real;
        && byIp == Live(DropUpTo, Lookup(l.value.ipLog, ip), now - window) && |byIp| <= limit
        && byUser == Live(DropUpTo, Lookup(l.value.userLog, user), now - window) && |byUser| <= limit
        && (!d.allowed ==>
              && DecideLater(limit, window, byIp, byUser, due).allowed
              && !DecideLater(limit, window, byIp, byUser, due - 1.0).allowed)
  {
    hide Prune, Live, Lookup, Decide, Pruned, AllRecorded, WithinLimit;
    AttemptsKeepLimit(limit, window, attempts);
    var l := AfterAttempts(limit, window, attempts);
    if l.Some? && l.value.clock <= now {
      var v := l.value;
      BucketAt(limit, v.ipLog, v.byIp, ip, window, v.clock, now);
      BucketAt(limit, v.userLog, v.byUser, user, window, v.clock, now);
      WithinLimitIsExact(limit, window, Prune(Lookup(v.byIp, ip), window, now),
                         Prune(Lookup(v.byUser, user), window, now), now);
    }
  }

  // ---------------------------------------------------------------------
  // Attempts that overlap
  // ---------------------------------------------------------------------

  /** `n` checks of one client, all at one time. */
  function CheckedTimes(l: Limiter, ip: string, user: string, now: real, n: nat): (r: Limiter)
    ensures r.limit == l.limit && r.window == l.window
  {
    if n == 0 then l else Checked(CheckedTimes(l, ip, user, now, n - 1), ip, user, now)
  }

  /** `n` failures of one client, all at one time. */
  function FailedTimes(l: Limiter, ip: string, user: string, now: real, n: nat): (r: Limiter)
    ensures r.limit == l.limit && r.window == l.window
  {
    if n == 0 then l else Failed(FailedTimes(l, ip, user, now, n - 1), ip, user, now)
  }

  lemma {:induction false} ChecksLeaveEmpty(limit: nat, window: real, ip: string, user: string, n: nat)
    ensures
      var l := CheckedTimes(NewLimiter(limit, window), ip, user, 0.0, n);
      Lookup(l.byIp, ip) == [] && Lookup(l.byUser, user) == []
  {
    if n > 0 {
      ChecksLeaveEmpty(limit, window, ip, user, n - 1);
    }
  }

  function Repeat(t: real, n: nat): seq<real> { seq(n, _ => t) }

  lemma {:induction false} FailuresPile(l: Limiter, ip: string, user: string, n: nat)
    requires l.window > 10.0 && Lookup(l.byIp, ip) == [0.0] && Lookup(l.byUser, user) == [0.0]
    ensures
      var r := FailedTimes(l, ip, user, 10.0, n);
      && Lookup(r.byIp, ip) == [0.0] + Repeat(10.0, n) && Lookup(r.byUser, user) == [0.0] + Repeat(10.0, n)
  {
    if n > 0 {
      FailuresPile(l, ip, user, n - 1);
      var bucket := [0.0] + Repeat(10.0, n - 1);
      assert Prune(bucket, l.window, 10.0) == bucket;
      assert bucket + [10.0] == [0.0] + Repeat(10.0, n);
    }
  }

  /** Attempts that overlap break it, for every limit and window: one more than
      the limit is checked, and let in, before any fails, and then all fail, the
      first of them ten seconds before the rest. The `retry_after` given counts
      from that first failure, while a slot is only free once the rest expire. */
  lemma OverlappingAttemptsOverfill(limit: nat, window: real, ip: string, user: string)
    requires limit >= 1 && window > 10.0
    ensures forall k: nat :: k <= limit ==>
      DecisionAt(CheckedTimes(NewLimiter(limit, window), ip, user, 0.0, k), ip, user, 0.0).allowed
    ensures
      var checked := CheckedTimes(NewLimiter(limit, window), ip, user, 0.0, limit + 1);
      var l := FailedTimes(Failed(checked, ip, user, 0.0), ip, user, 10.0, limit);
      var d := DecisionAt(l, ip, user, 10.0);
      && |Lookup(l.byIp, ip)| == limit + 1 && |Lookup(l.byUser, user)| == limit + 1
      && !d.allowed && !DecisionAt(l, ip, user, 10.0 + d.retryAfterSeconds as real).allowed
  {
    forall k: nat | k <= limit
      ensures DecisionAt(CheckedTimes(NewLimiter(limit, window), ip, user, 0.0, k), ip, user, 0.0).allowed
    {
      ChecksLeaveEmpty(limit, window, ip, user, k);
    }
    ChecksLeaveEmpty(limit, window, ip, user, limit + 1);
    var checked := CheckedTimes(NewLimiter(limit, window), ip, user, 0.0, limit + 1);
    var first := Failed(checked, ip, user, 0.0);
    FailuresPile(first, ip, user, limit);
    PiledBucketIsStillFull(limit, window);
    hide CheckedTimes, FailedTimes, Decide;
  }

  /** The piled bucket when the first denial is over. */
  lemma PiledBucketIsStillFull(limit: nat, window: real)
    requires limit >= 1 && window > 10.0
    ensures
      var b := [0.0] + Repeat(10.0, limit);
      var d := Decide(limit, window, b, b, 10.0);
      && Prune(b, window, 10.0) == b && !d.allowed
      && |Prune(b, window, 10.0 + d.retryAfterSeconds as real)| >= limit
  {
    var b := [0.0] + Repeat(10.0, limit);
    var due := 10.0 + Decide(limit, window, b, b, 10.0).retryAfterSeconds as real;
    assert due < window + 10.0 && b[1] == 10.0;
    PrunedBelowLimit(limit, window, b, due);
  }
}
