/** Timestamps kept in arrival order and expired from the left, as both the
    circuit breaker (app/domain/circuit_breaker.py) and the login limiter
    (app/auth/rate_limit.py) keep them in a deque. */
module SlidingWindow {

  /** Which entries expire when the cut-off is `cutoff`: the breaker drops
      entries strictly older than it, the limiter also drops equal ones. */
  datatype Edge = DropBefore | DropUpTo

  predicate Expired(edge: Edge, t: real, cutoff: real) {
    t < cutoff || (edge.DropUpTo? && t == cutoff)
  }

  ghost predicate Sorted(ts: seq<real>) {
    forall i, j :: 0 <= i < j < |ts| ==> ts[i] <= ts[j]
  }

  /** What popping expired entries off the left end leaves. */
  function Evict(edge: Edge, ts: seq<real>, cutoff: real): (kept: seq<real>)
    ensures |kept| <= |ts|
  {
    if ts == [] || !Expired(edge, ts[0], cutoff) then ts else Evict(edge, ts[1..], cutoff)
  }

  /** It pops a prefix of expired entries and stops at the first live one. */
  lemma {:induction false} EvictShape(edge: Edge, ts: seq<real>, cutoff: real)
    ensures
      var kept := Evict(edge, ts, cutoff);
      && kept == ts[|ts| - |kept|..]
      && (forall i :: 0 <= i < |ts| - |kept| ==> Expired(edge, ts[i], cutoff))
      && (kept != [] ==> !Expired(edge, kept[0], cutoff))
  {
    if ts != [] && Expired(edge, ts[0], cutoff) {
      EvictShape(edge, ts[1..], cutoff);
      var kept := Evict(edge, ts[1..], cutoff);
      assert ts[1..][|ts| - 1 - |kept|..] == ts[|ts| - |kept|..];
      forall i | 0 <= i < |ts| - |kept|
        ensures Expired(edge, ts[i], cutoff)
      {
        if i > 0 {
          assert ts[i] == ts[1..][i - 1];
        }
      }
    }
  }

  /** The entries of a whole log that a cut-off keeps, wherever they stand. */
  function Live(edge: Edge, log: seq<real>, cutoff: real): (live: seq<real>) {
    if log == [] then []
    else if Expired(edge, log[0], cutoff) then Live(edge, log[1..], cutoff)
    else [log[0]] + Live(edge, log[1..], cutoff)
  }

  lemma {:induction false} LiveOfConcat(edge: Edge, a: seq<real>, b: seq<real>, cutoff: real)
    ensures Live(edge, a + b, cutoff) == Live(edge, a, cutoff) + Live(edge, b, cutoff)
    decreases |a|
  {
    if a == [] {
      assert a + b == b;
    } else {
      LiveOfConcat(edge, a[1..], b, cutoff);
      LiveCons(edge, a[0], a[1..] + b, cutoff);
      LiveCons(edge, a[0], a[1..], cutoff);
      assert a + b == [a[0]] + (a[1..] + b) && a == [a[0]] + a[1..];
    }
  }

  lemma LiveCons(edge: Edge, t: real, log: seq<real>, cutoff: real)
    ensures Live(edge, [t] + log, cutoff) ==
            (if Expired(edge, t, cutoff) then [] else [t]) + Live(edge, log, cutoff)
  {
    assert ([t] + log)[1..] == log;
  }

  lemma {:induction false} AllLive(edge: Edge, log: seq<real>, cutoff: real)
    requires forall i :: 0 <= i < |log| ==> !Expired(edge, log[i], cutoff)
    ensures Live(edge, log, cutoff) == log
  {
    if log != [] {
      AllLive(edge, log[1..], cutoff);
    }
  }

  lemma {:induction false} NoneLive(edge: Edge, log: seq<real>, cutoff: real)
    requires forall i :: 0 <= i < |log| ==> Expired(edge, log[i], cutoff)
    ensures Live(edge, log, cutoff) == []
  {
    if log != [] {
      NoneLive(edge, log[1..], cutoff);
    }
  }

  /** Popping from the left loses nothing that a filter over the whole deque
      would keep: the cheap eviction is exact on sorted timestamps. */
  lemma {:induction false} EvictIsFilter(edge: Edge, ts: seq<real>, cutoff: real)
    requires Sorted(ts)
    ensures Evict(edge, ts, cutoff) == Live(edge, ts, cutoff)
    ensures Sorted(Evict(edge, ts, cutoff))
  {
    if ts == [] {
    } else if Expired(edge, ts[0], cutoff) {
      EvictIsFilter(edge, ts[1..], cutoff);
    } else {
      AllLive(edge, ts, cutoff);
    }
  }

  /** At least `n` entries of a sorted log are live exactly when its `n`-th entry
      from the end is young enough. */
  lemma LiveCount(edge: Edge, log: seq<real>, cutoff: real, n: nat)
    requires Sorted(log)
    ensures
      n <= |Live(edge, log, cutoff)| <==>
        n == 0 || (n <= |log| && (log[|log| - n] > cutoff || (edge.DropBefore? && log[|log| - n] == cutoff)))
  {
    hide Evict, Live, Sorted;
    EvictIsFilter(edge, log, cutoff);
    EvictShape(edge, log, cutoff);
    var gone := |log| - |Evict(edge, log, cutoff)|;
    if n > 0 && gone < |log| {
      assert log[gone..][0] == log[gone];
      LaterIsLive(edge, log, cutoff, gone);
    }
    if 0 < n <= |log| {
      assert 0 <= |log| - n;
    }
  }

  lemma LaterIsLive(edge: Edge, log: seq<real>, cutoff: real, k: nat)
    requires Sorted(log) && k < |log| && !Expired(edge, log[k], cutoff)
    ensures forall i :: k <= i < |log| ==> !Expired(edge, log[i], cutoff)
  {
  }

  /** `kept` is what is left of the log once some prefix of entries, all of
      them already expired at `horizon`, has been dropped. */
  ghost predicate Retains(edge: Edge, log: seq<real>, kept: seq<real>, horizon: real) {
    && |kept| <= |log|
    && kept == log[|log| - |kept|..]
    && forall i :: 0 <= i < |log| - |kept| ==> Expired(edge, log[i], horizon)
  }

  /** A deque that dropped only entries expired at an earlier cut-off still
      answers exactly for every later one. */
  lemma RetainsIsExact(edge: Edge, log: seq<real>, kept: seq<real>, horizon: real, cutoff: real)
    requires Sorted(log) && Retains(edge, log, kept, horizon) && horizon <= cutoff
    ensures Evict(edge, kept, cutoff) == Live(edge, log, cutoff)
  {
    var gone := log[..|log| - |kept|];
    assert log == gone + kept;
    LiveOfConcat(edge, gone, kept, cutoff);
    NoneLive(edge, gone, cutoff);
    EvictIsFilter(edge, kept, cutoff);
  }

  lemma RetainsTrimmed(edge: Edge, log: seq<real>, kept: seq<real>, cutoff: real)
    requires Retains(edge, log, kept, cutoff)
    ensures Retains(edge, log, Evict(edge, kept, cutoff), cutoff)
  {
    EvictShape(edge, kept, cutoff);
    TrimRetains(edge, log, kept, Evict(edge, kept, cutoff), cutoff);
  }

  lemma TrimRetains(edge: Edge, log: seq<real>, kept: seq<real>, rest: seq<real>, cutoff: real)
    requires Retains(edge, log, kept, cutoff) && Retains(edge, kept, rest, cutoff)
    ensures Retains(edge, log, rest, cutoff)
  {
    var n, m := |log| - |kept|, |kept| - |rest|;
    forall i | 0 <= i < n + m
      ensures Expired(edge, log[i], cutoff)
    {
      if i >= n {
        assert log[i] == kept[i - n];
      }
    }
  }

  lemma RetainsLater(edge: Edge, log: seq<real>, kept: seq<real>, horizon: real, cutoff: real)
    requires Retains(edge, log, kept, horizon) && horizon <= cutoff
    ensures Retains(edge, log, kept, cutoff)
  {
  }

  /** A log and its trimmed deque after a new entry arrives. */
  lemma RetainsAppend(edge: Edge, log: seq<real>, kept: seq<real>, horizon: real, t: real)
    requires Retains(edge, log, kept, horizon)
    ensures Retains(edge, log + [t], kept + [t], horizon)
  {
    var gone := log[..|log| - |kept|];
    assert log == gone + kept;
    assert log + [t] == gone + (kept + [t]);
  }
}
