/** Why app/logging_setup.py takes the longest secret first: with any number of
    secrets, wherever one stands clear of all others of its length or more, it
    becomes one placeholder, and what is on either side is redacted as if it
    stood alone. */
module LongestFirst {
  import opened Options
  import opened SeqFacts
  import opened Rewriting
  import opened TailPass
  import opened ScanEnd
  import opened LogRedaction

  /** `t` stands nowhere across the cut between `x` and `y`. */
  ghost predicate NotAcross(t: string, x: string, y: string) {
    forall k :: 0 < k < |t| ==> !(EndsWith(x, t[..k]) && t[k..] <= y)
  }

  lemma NotAcrossRest(t: string, x: string, y: string, n: nat)
    requires NotAcross(t, x, y) && n <= |x|
    ensures NotAcross(t, x[n..], y)
  {
    forall k | 0 < k < |t| ensures !(EndsWith(x[n..], t[..k]) && t[k..] <= y) {
      if EndsWith(x[n..], t[..k]) {
        assert x[|x| - k..] == x[n..][|x[n..]| - k..];
        assert EndsWith(x, t[..k]);
      }
    }
  }

  lemma FrontSplits(t: string, x: string, y: string)
    requires t <= x + y && |x| <= |t|
    ensures t[..|x|] == x && EndsWith(x, t[..|x|]) && t[|x|..] <= y
  {
    assert t[..|x|] == (x + y)[..|x|] == x;
    assert t[|x|..] <= (x + y)[|x|..] == y;
  }

  lemma NoFrontAcross(t: string, x: string, y: string)
    requires x != "" && NotAcross(t, x, y) && t <= x + y
    ensures t <= x
  {
    if |t| > |x| {
      FrontSplits(t, x, y);
    }
  }

  /** A literal that does not stand across a cut is replaced on either side of it
      as if the other were not there. */
  lemma {:induction false} CutRewrite(t: string, x: string, y: string)
    requires t != "" && NotAcross(t, x, y)
    ensures Rewrite(Literal(t), x + y) == Rewrite(Literal(t), x) + Rewrite(Literal(t), y)
    decreases |x|
  {
    hide NotAcross, Rewrite;
    var p := Literal(t);
    if x == "" {
      assert x + y == y && Rewrite(p, x) == "" by { CleanText(x, t); }
      assert Rewrite(p, x) + Rewrite(p, y) == Rewrite(p, y);
    } else {
      var n := if t <= x then |t| else 1;
      var copied := if t <= x then PLACEHOLDER else [x[0]];
      if t <= x + y {
        NoFrontAcross(t, x, y);
      }
      ConcatSlices(x, y, n);
      NotAcrossRest(t, x, y, n);
      CutRewrite(t, x[n..], y);
      PrefixOfConcat(t, x, y);
      CopiedFront(p, x, n, copied);
      CopiedFront(p, x + y, n, copied);
      Assoc(copied, Rewrite(p, x[n..]), Rewrite(p, y));
    }
  }

  lemma CleanText(s: string, t: string)
    requires s == "" && t != ""
    ensures Rewrite(Literal(t), s) == s
  {
    ShorterIsKept(s, t);
  }

  lemma PrefixOfConcat(t: string, x: string, y: string)
    ensures t <= x ==> t <= x + y
  {
  }

  // ---------------------------------------------------------------------
  // What rewriting leaves at the ends of a text
  // ---------------------------------------------------------------------

  ghost predicate NoPlaceholderIn(s: string) {
    forall k :: 0 <= k < |s| ==> !(PLACEHOLDER <= s[k..])
  }

  /** No placeholder lies in `u`, and none that begins before it ends in it. */
  ghost predicate Untouched(u: string) {
    && NoPlaceholderIn(u)
    && (forall j :: 0 <= j < |PLACEHOLDER| ==> !(PLACEHOLDER[j..] <= u))
  }

  lemma PlaceholderInside(t: string, k: nat, i: nat)
    requires i <= k <= |t| && PLACEHOLDER <= t[..k][i..]
    ensures Agree(t[i..], PLACEHOLDER)
  {
    assert t[..k][i..] <= t[i..];
  }

  lemma PlaceholderBefore(t: string, k: nat, j: nat)
    requires k <= |t| && j <= |PLACEHOLDER| && PLACEHOLDER[j..] <= t[..k]
    ensures Agree(t, PLACEHOLDER[j..])
  {
    assert t[..k] <= t;
  }

  lemma FrontIsUntouched(t: string, k: nat)
    requires Separable(t) && k <= |t|
    ensures Untouched(t[..k])
  {
    hide Agree;
    forall i | 0 <= i < k ensures !(PLACEHOLDER <= t[..k][i..]) {
      if PLACEHOLDER <= t[..k][i..] {
        PlaceholderInside(t, k, i);
      }
    }
    forall j | 0 <= j < |PLACEHOLDER| ensures !(PLACEHOLDER[j..] <= t[..k]) {
      if PLACEHOLDER[j..] <= t[..k] {
        PlaceholderBefore(t, k, j);
      }
    }
  }

  lemma NoneBehindFirst(c: char, s: string)
    requires NoPlaceholderIn([c] + s)
    ensures NoPlaceholderIn(s)
  {
    forall k | 0 <= k < |s| ensures !(PLACEHOLDER <= s[k..]) {
      assert ([c] + s)[k + 1..] == s[k..];
    }
  }

  lemma {:induction false} WholeIsOld(p: Pattern, s: string)
    requires NoPlaceholderIn(Rewrite(p, s))
    ensures Rewrite(p, s) == s
    decreases |s|
  {
    hide Rewrite, MatchFront, NoPlaceholderIn;
    if s == "" {
      RewriteNothing(p);
    } else if MatchFront(p, s).None? {
      RewriteAtCopy(p, s);
      NoneBehindFirst(s[0], Rewrite(p, s[1..]));
      WholeIsOld(p, s[1..]);
      assert s == [s[0]] + s[1..];
    } else {
      PlaceholderAt(p, s, MatchFront(p, s).value);
      PlaceholderThere(Rewrite(p, s), MatchFront(p, s).value.keep);
    }
  }

  lemma PlaceholderThere(s: string, k: nat)
    requires k < |s| && PLACEHOLDER <= s[k..]
    ensures !NoPlaceholderIn(s)
  {
  }

  lemma EndOfConcat(x: string, y: string, u: string)
    requires EndsWith(y, u)
    ensures EndsWith(x + y, u)
  {
    ConcatSlices(x, y, |x|);
    assert (x + y)[|x| + |y| - |u|..] == y[|y| - |u|..];
  }

  lemma ShortEnd(x: string, y: string, u: string)
    requires EndsWith(x + y, u) && |u| <= |y|
    ensures EndsWith(y, u)
  {
    assert (x + y)[|x| + |y| - |u|..] == y[|y| - |u|..];
  }

  /** An untouched end of the rewritten text was its end before. */
  lemma {:induction false} EndIsOld(p: Pattern, s: string, u: string)
    requires EndsWith(Rewrite(p, s), u) && Untouched(u)
    ensures EndsWith(s, u)
    decreases |s|
  {
    hide Untouched, Rewrite, EndsWith, MatchFront;
    if s == "" {
      assert EndsWith(s, u) by { RewriteNothing(p); }
    } else {
      var m := MatchFront(p, s);
      var gone := if m.Some? then m.value.end else 1;
      var copied := if m.Some? then s[..m.value.keep] + PLACEHOLDER else [s[0]];
      var rest := Rewrite(p, s[gone..]);
      assert Rewrite(p, s) == copied + rest by {
        if m.Some? {
          RewriteAtMatch(p, s, m.value);
        } else {
          RewriteAtCopy(p, s);
        }
      }
      if |u| <= |rest| {
        ShortEnd(copied, rest, u);
        EndIsOld(p, s[gone..], u);
        assert s == s[..gone] + s[gone..];
        EndOfConcat(s[..gone], s[gone..], u);
      } else if m.Some? {
        EndMeetsPlaceholder(s[..m.value.keep], rest, u);
      } else {
        WholeEnd(copied, rest, u);
        WholeUntouched(p, s, u);
        EndsWithWhole(s);
      }
    }
  }

  lemma WholeEnd(x: string, y: string, u: string)
    requires EndsWith(x + y, u) && |x| == 1 && |u| > |y|
    ensures u == x + y
  {
  }

  lemma EndsWithWhole(s: string)
    ensures EndsWith(s, s)
  {
  }

  lemma WholeUntouched(p: Pattern, s: string, u: string)
    requires u == Rewrite(p, s) && Untouched(u)
    ensures u == s
  {
    WholeIsOld(p, s);
  }

  /** An end that reaches beyond the text behind a placeholder meets it. */
  lemma EndMeetsPlaceholder(a: string, b: string, u: string)
    requires EndsWith(a + PLACEHOLDER + b, u) && |u| > |b|
    ensures !Untouched(u)
  {
    var s := a + PLACEHOLDER + b;
    var from := |s| - |u|;
    if from < |a| {
      assert u[|a| - from..] == s[|a|..] == PLACEHOLDER + b;
      assert PLACEHOLDER <= u[|a| - from..];
    } else {
      var j := from - |a|;
      assert u == s[from..] == PLACEHOLDER[j..] + b;
      assert PLACEHOLDER[j..] <= u;
    }
  }

  // ---------------------------------------------------------------------
  // One pass beside a secret
  // ---------------------------------------------------------------------

  /** Secret `t` stands across neither end of `long` between `a` and `b`. */
  ghost predicate ClearOf(t: string, a: string, long: string, b: string) {
    NotAcross(t, a, long + b) && NotAcross(t, a + long, b)
  }

  lemma FrontIsOld(p: Pattern, long: string, b: string, v: string)
    requires v <= long + Rewrite(p, b) && Clear(v)
    ensures v <= long + b
  {
    hide Rewrite, Clear;
    if |v| > |long| {
      FrontSplits(v, long, Rewrite(p, b));
      ClearRest(v, |long|);
      PrefixIsOld(p, b, v[|long|..]);
      assert v == long + v[|long|..];
      PrefixUnder(long, v[|long|..], b);
    } else {
      ShortFront(v, long, Rewrite(p, b), b);
    }
  }

  lemma ShortFront(v: string, x: string, y: string, z: string)
    requires v <= x + y && |v| <= |x|
    ensures v <= x + z
  {
    assert v == (x + y)[..|v|] == x[..|v|] == (x + z)[..|v|];
  }

  lemma ClearRest(v: string, n: nat)
    requires Clear(v) && n <= |v|
    ensures Clear(v[n..])
  {
    forall k | 0 <= k < |v[n..]| ensures !Agree(v[n..][k..], PLACEHOLDER) {
      assert v[n..][k..] == v[n + k..];
    }
  }

  lemma EndAcross(x: string, y: string, n: nat)
    requires n <= |x|
    ensures (x + y)[|x| - n..] == x[|x| - n..] + y
  {
  }

  lemma EndsOld(p: Pattern, a: string, long: string, t: string, k: nat)
    requires Separable(t) && k <= |t| && EndsWith(Rewrite(p, a) + long, t[..k])
    ensures EndsWith(a + long, t[..k])
  {
    hide Rewrite, Separable, Untouched;
    var u, r := t[..k], Rewrite(p, a);
    if k <= |long| {
      ShortEnd(r, long, u);
      EndOfConcat(a, long, u);
    } else {
      var n := k - |long|;
      EndAcross(r, long, n);
      assert t[..n] == u[..n] == r[|r| - n..];
      FrontIsUntouched(t, n);
      EndIsOld(p, a, t[..n]);
      EndAcross(a, long, n);
    }
  }

  /** Rewriting what is on either side brings no other secret across. */
  lemma StaysClear(p: Pattern, t: string, a: string, long: string, b: string)
    requires Separable(t)
    ensures NotAcross(t, a, long + b) ==> NotAcross(t, Rewrite(p, a), long + Rewrite(p, b))
    ensures NotAcross(t, a + long, b) ==> NotAcross(t, Rewrite(p, a) + long, Rewrite(p, b))
  {
    hide Rewrite, Clear;
    var a', b' := Rewrite(p, a), Rewrite(p, b);
    forall k | 0 < k < |t| && EndsWith(a', t[..k]) && t[k..] <= long + b'
      ensures EndsWith(a, t[..k]) && t[k..] <= long + b
    {
      assert a' + "" == a' && a + "" == a;
      EndsOld(p, a, "", t, k);
      ClearRest(t, k);
      FrontIsOld(p, long, b, t[k..]);
    }
    forall k | 0 < k < |t| && EndsWith(a' + long, t[..k]) && t[k..] <= b'
      ensures EndsWith(a + long, t[..k]) && t[k..] <= b
    {
      EndsOld(p, a, long, t, k);
      ClearRest(t, k);
      PrefixIsOld(p, b, t[k..]);
    }
  }

  /** A pass for another secret, no shorter, leaves `long` alone. */
  lemma PassBeside(t: string, a: string, long: string, b: string)
    requires t != "" && t != long && |long| <= |t| && ClearOf(t, a, long, b)
    ensures Rewrite(Literal(t), a + (long + b)) == Rewrite(Literal(t), a) + (long + Rewrite(Literal(t), b))
  {
    hide Rewrite;
    var p := Literal(t);
    CutRewrite(t, a, long + b);
    assert NotAcross(t, long, b) by {
      ConcatSlices(a, long, |a|);
      NotAcrossRest(t, a + long, b, |a|);
    }
    CutRewrite(t, long, b);
    assert Rewrite(p, long) == long by {
      if Contains(long, t) {
        ContainedIsWhole(t, long);
      }
      AbsentIsKept(long, t);
    }
  }

  lemma ContainedIsWhole(t: string, s: string)
    requires Contains(s, t) && |s| <= |t|
    ensures t == s
  {
    var i :| 0 <= i <= |s| && t <= s[i..];
    assert i == 0 && s[0..] == s;
  }

  // ---------------------------------------------------------------------
  // All passes
  // ---------------------------------------------------------------------

  /** The passes for the secrets behind `long` meet its placeholder. */
  lemma {:induction false} PassesAround(a: string, b: string, order: seq<string>)
    requires forall i :: 0 <= i < |order| ==> Separable(order[i])
    ensures RedactInOrder(a + (PLACEHOLDER + b), order) ==
            RedactInOrder(a, order) + (PLACEHOLDER + RedactInOrder(b, order))
    decreases |order|
  {
    if order != [] {
      AroundPlaceholder(order[0], a, b);
      PassesAround(Rewrite(Literal(order[0]), a), Rewrite(Literal(order[0]), b), order[1..]);
    }
  }

  /** No listed secret of its length or more stands across an end of `long`; a
      second copy of it may begin inside it. */
  ghost predicate StandsClear(order: seq<string>, a: string, long: string, b: string) {
    forall t :: t in order && |t| >= |long| ==> NotAcross(t, a, long + b) && (t != long ==> NotAcross(t, a + long, b))
  }

  lemma StandsClearAfter(order: seq<string>, a: string, long: string, b: string)
    requires order != [] && StandsClear(order, a, long, b) && forall i :: 0 <= i < |order| ==> Separable(order[i])
    ensures
      var p := Literal(order[0]);
      StandsClear(order[1..], Rewrite(p, a), long, Rewrite(p, b))
  {
    hide Rewrite, Separable, NotAcross;
    var p := Literal(order[0]);
    forall t | t in order[1..] && |t| >= |long|
      ensures NotAcross(t, Rewrite(p, a), long + Rewrite(p, b))
      ensures t != long ==> NotAcross(t, Rewrite(p, a) + long, Rewrite(p, b))
    {
      assert t in order;
      StaysClear(p, t, a, long, b);
    }
  }

  lemma SeparableIsText(t: string)
    requires Separable(t)
    ensures t != ""
  {
  }

  /** Longest first, with any number of secrets that nest and overlap as they may:
      a place where a secret stands, and no other of its length or more across
      its ends, becomes one placeholder. Both sides are redacted on their own. */
  lemma {:induction false} LongestBecomesOne(a: string, long: string, b: string, order: seq<string>)
    requires long in order && LongestFirst(order) && forall i :: 0 <= i < |order| ==> Separable(order[i])
    requires StandsClear(order, a, long, b)
    ensures RedactInOrder(a + (long + b), order) ==
            RedactInOrder(a, order) + (PLACEHOLDER + RedactInOrder(b, order))
    decreases |order|
  {
    hide Rewrite, Separable, NotAcross;
    var t := order[0];
    assert |t| >= |long| && t in order;
    SeparableIsText(t);
    if t == long {
      assert NotAcross(long, a, long + b);
      CutRewrite(long, a, long + b);
      WordAtFront(long, b);
      PassesAround(Rewrite(Literal(t), a), Rewrite(Literal(t), b), order[1..]);
    } else {
      assert ClearOf(t, a, long, b);
      PassBeside(t, a, long, b);
      StandsClearAfter(order, a, long, b);
      LongestBecomesOne(Rewrite(Literal(t), a), long, Rewrite(Literal(t), b), order[1..]);
    }
  }

  /** So a single secret in text that holds no other is replaced, all of it, and
      the text around it is kept. */
  lemma TextAroundIsKept(a: string, long: string, b: string, order: seq<string>)
    requires long in order && LongestFirst(order) && forall i :: 0 <= i < |order| ==> Separable(order[i])
    requires StandsClear(order, a, long, b)
    requires forall i :: 0 <= i < |order| ==> !Contains(a, order[i]) && !Contains(b, order[i])
    ensures RedactInOrder(a + (long + b), order) == a + ("***REDACTED***" + b)
  {
    LongestBecomesOne(a, long, b, order);
    CleanIsKept(a, order);
    CleanIsKept(b, order);
  }
}
