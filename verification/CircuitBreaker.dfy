/** The worker circuit breaker of app/domain/circuit_breaker.py: a mutable
    deque of failure times, a functional specification of every call, and the
    proof that the deque answers as an unbounded failure log would. */
module CircuitBreaker {
  import opened SlidingWindow
  import opened Options

  datatype Verdict = CLOSED | OPEN

  datatype Policy = Policy(maxFailures: nat, window: real, healthyResetAfter: real)

  const DEFAULT_POLICY := Policy(30, 300.0, 60.0)

  datatype State = State(failures: seq<real>, healthySince: Option<real>)

  const EMPTY := State([], None)

  function EvictOld(p: Policy, s: State, now: real): State {
    s.(failures := Evict(DropBefore, s.failures, now - p.window))
  }

  function AfterFailure(p: Policy, s: State, now: real): State {
    State(EvictOld(p, s, now).failures + [now], None)
  }

  function AfterHealthy(p: Policy, s: State, now: real): State {
    if s.healthySince.None? then s.(healthySince := Some(now))
    else if now - s.healthySince.value >= p.healthyResetAfter then s.(failures := [])
    else s
  }

  function VerdictOf(p: Policy, s: State): Verdict {
    if |s.failures| >= p.maxFailures then OPEN else CLOSED
  }

  /** The mutable breaker. `Abs` is its value; every method says what it does
      to that value. */
  class Breaker {
    const policy: Policy
    var failures: seq<real>
    var lastHealthySince: Option<real>

    constructor (policy: Policy)
      ensures this.policy == policy && Abs() == EMPTY
    {
      this.policy := policy;
      failures, lastHealthySince := [], None;
    }

    function Abs(): State
      reads this
    {
      State(failures, lastHealthySince)
    }

    method EvictOldInPlace(now: real)
      modifies this`failures
      ensures Abs() == EvictOld(policy, old(Abs()), now)
    {
      var cutoff := now - policy.window;
      while |failures| > 0 && failures[0] < cutoff
        invariant Evict(DropBefore, failures, cutoff) == Evict(DropBefore, old(failures), cutoff)
        decreases |failures|
      {
        failures := failures[1..];
      }
    }

    method RecordFailure(now: real)
      modifies this
      ensures Abs() == AfterFailure(policy, old(Abs()), now)
    {
      EvictOldInPlace(now);
      failures := failures + [now];
      lastHealthySince := None;
    }

    method RecordHealthy(now: real)
      modifies this
      ensures Abs() == AfterHealthy(policy, old(Abs()), now)
    {
      if lastHealthySince.None? {
        lastHealthySince := Some(now);
        return;
      }
      if now - lastHealthySince.value >= policy.healthyResetAfter {
        failures := [];
      }
    }

    method ShouldOpen(now: real) returns (v: Verdict)
      modifies this`failures
      ensures Abs() == EvictOld(policy, old(Abs()), now)
      ensures v == VerdictOf(policy, Abs())
    {
      EvictOldInPlace(now);
      v := if |failures| >= policy.maxFailures then OPEN else CLOSED;
    }

    method FailureCountInWindow(now: real) returns (n: nat)
      modifies this`failures
      ensures Abs() == EvictOld(policy, old(Abs()), now)
      ensures n == |failures|
    {
      EvictOldInPlace(now);
      n := |failures|;
    }

    method Reset()
      modifies this
      ensures Abs() == EMPTY
    {
      failures := [];
      lastHealthySince := None;
    }
  }

  // ---------------------------------------------------------------------
  // Whole call histories
  // ---------------------------------------------------------------------

  datatype Call = Failure(at: real) | Healthy(at: real) | Query(at: real) | UserReset

  function Apply(p: Policy, s: State, c: Call): State {
    match c
    case Failure(t) => AfterFailure(p, s, t)
    case Healthy(t) => AfterHealthy(p, s, t)
    case Query(t) => EvictOld(p, s, t)
    case UserReset => EMPTY
  }

  function RunCalls(p: Policy, calls: seq<Call>): State {
    if calls == [] then EMPTY else Apply(p, RunCalls(p, calls[..|calls| - 1]), calls[|calls| - 1])
  }

  /** No timed call reads a clock below `floor`, and clocks never go back. */
  ghost predicate Monotone(calls: seq<Call>) {
    forall i, j :: 0 <= i < j < |calls| && !calls[i].UserReset? && !calls[j].UserReset?
      ==> calls[i].at <= calls[j].at
  }

  ghost predicate NotBefore(calls: seq<Call>, now: real) {
    forall i :: 0 <= i < |calls| && !calls[i].UserReset? ==> calls[i].at <= now
  }

  /** Call `f` is the first healthy observation after the last failure or
      reset that precedes call `n`. */
  ghost predicate HealthyStretch(calls: seq<Call>, f: nat, n: nat) {
    && f < n <= |calls|
    && calls[f].Healthy?
    && (forall i :: f <= i < n ==> calls[i].Healthy? || calls[i].Query?)
    && FirstOfStretch(calls, f)
  }

  /** Nothing healthy separates call `f` from the break before it. */
  ghost predicate FirstOfStretch(calls: seq<Call>, f: nat)
    requires f <= |calls|
  {
    f == 0 || match calls[f - 1]
              case Query(_) => FirstOfStretch(calls, f - 1)
              case Healthy(_) => false
              case _ => true
  }

  /** Call `n` is a healthy observation at least `healthyResetAfter` after the
      start of the uninterrupted healthy stretch it ends. */
  ghost predicate Clears(p: Policy, calls: seq<Call>, n: nat)
    requires n < |calls|
  {
    && calls[n].Healthy?
    && exists f: nat :: HealthyStretch(calls, f, n) && calls[n].at - calls[f].at >= p.healthyResetAfter
  }

  /** The reference: every failure ever recorded since the last reset or the
      last long enough healthy stretch, with no window at all. */
  ghost function Log(p: Policy, calls: seq<Call>): seq<real> {
    if calls == [] then []
    else
      var n := |calls| - 1;
      match calls[n]
      case Failure(t) => Log(p, calls[..n]) + [t]
      case Healthy(_) => if Clears(p, calls, n) then [] else Log(p, calls[..n])
      case Query(_) => Log(p, calls[..n])
      case UserReset => []
  }

  /** The healthy timer the code keeps is the start of the current stretch. */
  ghost predicate TimerTracks(calls: seq<Call>, since: Option<real>) {
    match since
    case Some(t) => exists f: nat :: HealthyStretch(calls, f, |calls|) && calls[f].at == t
    case None => FirstOfStretch(calls, |calls|)
  }

  lemma {:induction false} FirstOfStretchPrefix(calls: seq<Call>, n: nat, f: nat)
    requires f <= n <= |calls|
    ensures FirstOfStretch(calls[..n], f) == FirstOfStretch(calls, f)
    decreases f
  {
    if f > 0 && calls[f - 1].Query? {
      FirstOfStretchPrefix(calls, n, f - 1);
    }
  }

  /** Between the first healthy call of a stretch and its end there is no
      other first healthy call. */
  lemma {:induction false} NotFirst(calls: seq<Call>, f: nat, g: nat)
    requires f < g <= |calls| && calls[f].Healthy?
    requires forall i :: f <= i < g ==> calls[i].Healthy? || calls[i].Query?
    ensures !FirstOfStretch(calls, g)
    decreases g
  {
    if calls[g - 1].Query? {
      NotFirst(calls, f, g - 1);
    }
  }

  lemma StretchIsUnique(calls: seq<Call>, f: nat, g: nat, n: nat)
    requires HealthyStretch(calls, f, n) && HealthyStretch(calls, g, n)
    ensures f == g
  {
    if f < g {
      NotFirst(calls, f, g);
    } else if g < f {
      NotFirst(calls, g, f);
    }
  }

  lemma StretchPrefix(calls: seq<Call>, f: nat, n: nat)
    requires n <= |calls|
    ensures HealthyStretch(calls[..n], f, n) == HealthyStretch(calls, f, n)
  {
    if f < n {
      FirstOfStretchPrefix(calls, n, f);
    }
  }

  lemma {:induction false} TimerInvariant(p: Policy, calls: seq<Call>)
    ensures TimerTracks(calls, RunCalls(p, calls).healthySince)
  {
    if calls != [] {
      var n := |calls| - 1;
      var before := calls[..n];
      TimerInvariant(p, before);
      var since := RunCalls(p, before).healthySince;
      FirstOfStretchPrefix(calls, n, n);
      if since.Some? {
        var f: nat :| HealthyStretch(before, f, n) && before[f].at == since.value;
        StretchPrefix(calls, f, n);
        if calls[n].Healthy? || calls[n].Query? {
          assert HealthyStretch(calls, f, n + 1);
        }
      } else if calls[n].Healthy? {
        assert HealthyStretch(calls, n, n + 1);
      }
    }
  }

  /** A healthy call empties the deque exactly when at least
      `healthyResetAfter` has passed since the first healthy call after the
      last failure or reset, in every history. */
  lemma HealthyClearsExactly(p: Policy, calls: seq<Call>, t: real)
    ensures
      var s := RunCalls(p, calls);
      (s.healthySince.Some? && t - s.healthySince.value >= p.healthyResetAfter)
      <==> Clears(p, calls + [Healthy(t)], |calls|)
  {
    var s := RunCalls(p, calls);
    var n := |calls|;
    var ext := calls + [Healthy(t)];
    TimerInvariant(p, calls);
    assert ext[..n] == calls;
    if s.healthySince.Some? {
      var f: nat :| HealthyStretch(calls, f, n) && calls[f].at == s.healthySince.value;
      StretchPrefix(ext, f, n);
      assert HealthyStretch(ext, f, n) && ext[f].at == s.healthySince.value;
      if Clears(p, ext, n) {
        var g: nat :| HealthyStretch(ext, g, n) && ext[n].at - ext[g].at >= p.healthyResetAfter;
        StretchIsUnique(ext, f, g, n);
      }
    } else {
      forall g: nat ensures !HealthyStretch(ext, g, n) {
        if HealthyStretch(ext, g, n) {
          StretchPrefix(ext, g, n);
          NotFirst(calls, g, n);
        }
      }
    }
  }

  /** The log is sorted, ends no later than `now`, and the deque holds all of
      it but failures that had left the window. */
  ghost predicate InStep(p: Policy, log: seq<real>, s: State, now: real) {
    && Sorted(log)
    && (forall i :: 0 <= i < |log| ==> log[i] <= now)
    && Retains(DropBefore, log, s.failures, now - p.window)
  }

  lemma InStepMoves(p: Policy, log: seq<real>, s: State, since: real, now: real)
    requires p.window >= 0.0 && InStep(p, log, s, since) && since <= now
    ensures InStep(p, log, s, now)
  {
    RetainsLater(DropBefore, log, s.failures, since - p.window, now - p.window);
  }

  lemma InStepTrims(p: Policy, log: seq<real>, s: State, now: real)
    requires InStep(p, log, s, now)
    ensures InStep(p, log, EvictOld(p, s, now), now)
    ensures EvictOld(p, s, now).failures == Live(DropBefore, log, now - p.window)
  {
    hide Retains, Sorted, Evict, Live;
    var c := now - p.window;
    RetainedLater(log, s.failures, c, c);
  }

  lemma InStepLater(p: Policy, log: seq<real>, s: State, since: real, now: real)
    requires p.window >= 0.0 && InStep(p, log, s, since) && since <= now
    ensures InStep(p, log, s, now)
    ensures InStep(p, log, EvictOld(p, s, now), now)
    ensures EvictOld(p, s, now).failures == Live(DropBefore, log, now - p.window)
  {
    InStepMoves(p, log, s, since, now);
    InStepTrims(p, log, s, now);
  }

  lemma RetainedLater(log: seq<real>, kept: seq<real>, h: real, c: real)
    requires Sorted(log) && Retains(DropBefore, log, kept, h) && h <= c
    ensures Retains(DropBefore, log, kept, c)
    ensures Retains(DropBefore, log, Evict(DropBefore, kept, c), c)
    ensures Evict(DropBefore, kept, c) == Live(DropBefore, log, c)
  {
    assert Retains(DropBefore, log, kept, c) by {
      RetainsLater(DropBefore, log, kept, h, c);
    }
    assert Retains(DropBefore, log, Evict(DropBefore, kept, c), c) by {
      RetainsTrimmed(DropBefore, log, kept, c);
    }
    assert Evict(DropBefore, kept, c) == Live(DropBefore, log, c) by {
      RetainsIsExact(DropBefore, log, kept, h, c);
    }
  }

  lemma InStepFailure(p: Policy, log: seq<real>, s: State, now: real)
    requires p.window >= 0.0 && InStep(p, log, s, now)
    ensures InStep(p, log + [now], AfterFailure(p, s, now), now)
  {
    var kept := EvictOld(p, s, now).failures;
    assert Retains(DropBefore, log, kept, now - p.window) by {
      InStepLater(p, log, s, now, now);
    }
    assert Retains(DropBefore, log + [now], kept + [now], now - p.window) by {
      RetainsAppend(DropBefore, log, kept, now - p.window, now);
    }
    SortedAppend(log, now);
  }

  lemma SortedAppend(log: seq<real>, now: real)
    requires Sorted(log) && forall i :: 0 <= i < |log| ==> log[i] <= now
    ensures Sorted(log + [now]) && forall i :: 0 <= i < |log + [now]| ==> (log + [now])[i] <= now
  {
  }

  lemma CallKeepsStep(p: Policy, before: seq<Call>, c: Call)
    requires p.window >= 0.0 && !c.UserReset? && InStep(p, Log(p, before), RunCalls(p, before), c.at)
    ensures InStep(p, Log(p, before + [c]), RunCalls(p, before + [c]), c.at)
  {
    var log, s := Log(p, before), RunCalls(p, before);
    assert (before + [c])[..|before|] == before;
    match c {
      case Failure(t) => InStepFailure(p, log, s, t);
      case Healthy(t) => HealthyClearsExactly(p, before, t);
      case Query(t) => InStepLater(p, log, s, t, t);
    }
  }

  lemma {:induction false} LogInvariant(p: Policy, calls: seq<Call>, now: real)
    requires p.window >= 0.0 && Monotone(calls) && NotBefore(calls, now)
    ensures InStep(p, Log(p, calls), RunCalls(p, calls), now)
  {
    if calls != [] {
      var n := |calls| - 1;
      var before, c := calls[..n], calls[n];
      if !c.UserReset? {
        LogInvariant(p, before, c.at);
        CallKeepsStep(p, before, c);
        assert before + [c] == calls;
        InStepLater(p, Log(p, calls), RunCalls(p, calls), c.at, now);
      }
    }
  }

  /** The bounded deque refines the unbounded log: with a clock that never
      goes back, whatever calls were made, the failures it counts at `now` are
      exactly the logged failures of the last `window` seconds, so the count
      shown and the verdict are those of the log. */
  lemma RefinesLog(p: Policy, calls: seq<Call>, now: real)
    requires p.window >= 0.0 && Monotone(calls) && NotBefore(calls, now)
    ensures EvictOld(p, RunCalls(p, calls), now).failures == Live(DropBefore, Log(p, calls), now - p.window)
    ensures VerdictOf(p, EvictOld(p, RunCalls(p, calls), now)) == OPEN
            <==> Reaches(p, Log(p, calls), now)
  {
    hide InStep, Monotone, Live, Evict, Log, RunCalls;
    LogInvariant(p, calls, now);
    ReachedExactly(p, Log(p, calls), RunCalls(p, calls), now);
  }

  lemma ReachedExactly(p: Policy, log: seq<real>, s: State, now: real)
    requires p.window >= 0.0 && InStep(p, log, s, now)
    ensures EvictOld(p, s, now).failures == Live(DropBefore, log, now - p.window)
    ensures VerdictOf(p, EvictOld(p, s, now)) == OPEN <==> Reaches(p, log, now)
  {
    hide Live, Evict, Retains;
    assert Sorted(log);
    hide Sorted;
    InStepLater(p, log, s, now, now);
    LiveCount(DropBefore, log, now - p.window, p.maxFailures);
  }

  /** The log ends in `maxFailures` failures none of which is older than `window`. */
  predicate Reaches(p: Policy, log: seq<real>, now: real) {
    p.maxFailures == 0 || (p.maxFailures <= |log| && now - log[|log| - p.maxFailures] <= p.window)
  }
}
