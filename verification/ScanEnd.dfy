/** What a rewriting pass does to the end of a text: it copies an end that no
    match reaches, and leaves a placeholder behind the last match otherwise. */
module ScanEnd {
  import opened Options
  import opened SeqFacts
  import opened Rewriting
  import opened TailPass

  predicate EndsWith(s: string, tail: string) {
    |tail| <= |s| && s[|s| - |tail|..] == tail
  }

  lemma EndsWithItself(front: string, tail: string)
    ensures EndsWith(front + tail, tail)
  {
  }

  lemma TailOfEnd(s: string, tail: string, n: nat)
    requires EndsWith(s, tail) && n <= |tail|
    ensures EndsWith(s, tail[|tail| - n..])
  {
    assert s[|s| - n..] == s[|s| - |tail|..][|tail| - n..];
  }

  lemma BothEnds(s: string, a: string, b: string)
    requires EndsWith(s, a) && EndsWith(s, b) && |a| <= |b|
    ensures EndsWith(b, a)
  {
    assert s[|s| - |a|..] == s[|s| - |b|..][|b| - |a|..];
  }

  lemma CharOfEnd(s: string, tail: string, n: nat)
    requires n < |tail|
    ensures EndsWith(s, tail) ==> |s| > n && s[|s| - n - 1] == tail[|tail| - n - 1]
  {
    if EndsWith(s, tail) {
      assert s[|s| - |tail|..][|tail| - n - 1] == s[|s| - n - 1];
    }
  }

  /** The scan from the left replaces a match that reaches into the last `n`
      characters. */
  predicate ReachesEnd(p: Pattern, s: string, n: nat)
    decreases |s|
  {
    s != "" &&
    match MatchFront(p, s)
    case None => ReachesEnd(p, s[1..], n)
    case Some(m) => m.end + n > |s| || ReachesEnd(p, s[m.end..], n)
  }

  lemma MatchIsCopied(s: string, t: string)
    requires MatchTail(s).Some? && MatchTail(s).value.end <= |t|
    requires t[..MatchTail(s).value.end] == s[..MatchTail(s).value.end]
    ensures MatchTail(t).Some? && MatchTail(t).value.keep == MatchTail(s).value.keep
    ensures MatchTail(s).value.end <= MatchTail(t).value.end
  {
    var i, j, end := MatchIsParsed(s);
    ParseIsLocal(s, t, i, j, end);
    ParseIsMatched(t, i, j, end);
  }

  lemma ShorterPrefix(s: string, t: string, n: nat)
    requires t <= s && n <= |t|
    ensures t[..n] == s[..n]
  {
  }

  lemma TailMatchIsLocal(s: string, t: string)
    requires t <= s
    ensures MatchTail(s).None? ==> MatchTail(t).None?
    ensures MatchTail(s).Some? && MatchTail(s).value.end <= |t| ==> MatchTail(t) == MatchTail(s)
  {
    hide MatchTail;
    if MatchTail(t).Some? {
      ShorterPrefix(s, t, MatchTail(t).value.end);
      MatchIsCopied(t, s);
    }
    if MatchTail(s).Some? && MatchTail(s).value.end <= |t| {
      ShorterPrefix(s, t, MatchTail(s).value.end);
      MatchIsCopied(s, t);
    }
  }

  /** Cutting a text behind the match at its front, or where there is none,
      changes nothing about that match. */
  lemma FrontMatchIsLocal(p: Pattern, s: string, t: string)
    requires t <= s
    ensures MatchFront(p, s).None? ==> MatchFront(p, t).None?
    ensures MatchFront(p, s).Some? && MatchFront(p, s).value.end <= |t| ==> MatchFront(p, t) == MatchFront(p, s)
  {
    match p
    case Literal(_) =>
    case RtmpTail => TailMatchIsLocal(s, t);
  }

  lemma {:induction false} UnmatchedIsSpared(p: Pattern, s: string, n: nat)
    requires Unmatched(p, s)
    ensures !ReachesEnd(p, s, n)
    decreases |s|
  {
    if s != "" {
      assert s[0..] == s;
      assert MatchFront(p, s).None?;
      forall i | 0 <= i < |s[1..]| ensures MatchFront(p, s[1..][i..]).None? {
        assert s[1..][i..] == s[i + 1..];
      }
      UnmatchedIsSpared(p, s[1..], n);
    }
  }

  lemma {:induction false} WholeIsSpared(p: Pattern, s: string, n: nat)
    requires |s| <= n && !ReachesEnd(p, s, n)
    ensures Rewrite(p, s) == s
    decreases |s|
  {
    if s != "" {
      WholeIsSpared(p, s[1..], n);
    }
  }

  lemma SparedByCopy(p: Pattern, s: string, end: string)
    requires s != "" && MatchFront(p, s + end).None? && MatchFront(p, s).None? && !ReachesEnd(p, s + end, |end|)
    ensures !ReachesEnd(p, s[1..] + end, |end|)
    ensures Rewrite(p, s + end) == [s[0]] + Rewrite(p, s[1..] + end) && Rewrite(p, s) == [s[0]] + Rewrite(p, s[1..])
  {
    RewriteAtCopy(p, s + end);
    RewriteAtCopy(p, s);
    ConcatSlices(s, end, 1);
  }

  lemma SparedByMatch(p: Pattern, s: string, end: string, m: Span)
    requires s != "" && MatchFront(p, s + end) == Some(m) && MatchFront(p, s) == Some(m)
    requires !ReachesEnd(p, s + end, |end|)
    ensures !ReachesEnd(p, s[m.end..] + end, |end|)
    ensures
      var copied := s[..m.keep] + PLACEHOLDER;
      && Rewrite(p, s + end) == copied + Rewrite(p, s[m.end..] + end)
      && Rewrite(p, s) == copied + Rewrite(p, s[m.end..])
  {
    RewriteAtMatch(p, s + end, m);
    RewriteAtMatch(p, s, m);
    ConcatSlices(s, end, m.end);
    ConcatSlices(s, end, m.keep);
  }

  lemma SparedStep(p: Pattern, s: string, end: string) returns (gone: nat, copied: string)
    requires s != "" && !ReachesEnd(p, s + end, |end|)
    ensures 0 < gone <= |s| && !ReachesEnd(p, s[gone..] + end, |end|)
    ensures Rewrite(p, s + end) == copied + Rewrite(p, s[gone..] + end) && Rewrite(p, s) == copied + Rewrite(p, s[gone..])
  {
    assert end == (s + end)[|s|..] && s <= s + end;
    FrontMatchIsLocal(p, s + end, s);
    match MatchFront(p, s + end)
    case None =>
      SparedByCopy(p, s, end);
      gone, copied := 1, [s[0]];
    case Some(m) =>
      SparedByMatch(p, s, end, m);
      gone, copied := m.end, s[..m.keep] + PLACEHOLDER;
  }

  /** An end that no match reaches is copied, and what comes before it is
      rewritten as if it stood alone. */
  lemma {:induction false} EndIsSpared(p: Pattern, s: string, end: string)
    requires !ReachesEnd(p, s + end, |end|)
    ensures Rewrite(p, s + end) == Rewrite(p, s) + end
    decreases |s|
  {
    if s == "" {
      assert s + end == end;
      WholeIsSpared(p, end, |end|);
    } else {
      var gone, copied := SparedStep(p, s, end);
      EndIsSpared(p, s[gone..], end);
      Assoc(copied, Rewrite(p, s[gone..]), end);
    }
  }

  /** What a text looks like where a match of the pattern ends with it. */
  ghost predicate EndsInMatch(p: Pattern, s: string) {
    match p
    case Literal(word) => word != "" && EndsWith(s, word)
    case RtmpTail => exists j :: 0 <= j && j + 9 <= |s| && s[j] == '/' && AllIn(KeyChar, s[j + 1..])
  }

  lemma MatchEnds(p: Pattern, s: string)
    requires MatchFront(p, s).Some?
    ensures EndsInMatch(p, s[..MatchFront(p, s).value.end])
  {
    if p.RtmpTail? {
      var i, j, end := MatchIsParsed(s);
      assert s[..end][j + 1..] == s[j + 1..end] && s[..end][j] == s[j];
    }
  }

  lemma EndsInMatchLater(p: Pattern, front: string, s: string)
    requires EndsInMatch(p, s)
    ensures EndsInMatch(p, front + s)
  {
    match p
    case Literal(word) => ConcatEnds(front, s, |s| - |word|);
    case RtmpTail =>
      var j :| 0 <= j && j + 9 <= |s| && s[j] == '/' && AllIn(KeyChar, s[j + 1..]);
      ConcatEnds(front, s, j + 1);
      assert (front + s)[|front| + j] == s[j];
  }

  lemma ConcatEnds(front: string, s: string, k: nat)
    requires k <= |s|
    ensures (front + s)[|front| + k..] == s[k..]
  {
  }

  /** A match ends at `k`, and the rewriting of `s` is `front`, a placeholder
      for that match, and the rest of `s` unchanged. */
  ghost predicate LastCutAt(p: Pattern, s: string, k: nat, front: string) {
    0 < k <= |s| && EndsInMatch(p, s[..k]) && Rewrite(p, s) == front + (PLACEHOLDER + s[k..])
  }

  lemma CutHere(p: Pattern, s: string, n: nat, m: Span)
    requires s != "" && MatchFront(p, s) == Some(m) && m.end + n > |s| && !ReachesEnd(p, s[m.end..], n)
    ensures LastCutAt(p, s, m.end, s[..m.keep])
  {
    RewriteAtMatch(p, s, m);
    WholeIsSpared(p, s[m.end..], n);
    Assoc(s[..m.keep], PLACEHOLDER, s[m.end..]);
    MatchEnds(p, s);
  }

  lemma CutLater(p: Pattern, s: string, gone: nat, k: nat, copied: string, front: string)
    requires gone <= |s| && Rewrite(p, s) == copied + Rewrite(p, s[gone..]) && LastCutAt(p, s[gone..], k, front)
    ensures LastCutAt(p, s, k + gone, copied + front)
  {
    hide Rewrite, EndsInMatch;
    var later := s[gone..];
    assert s[..k + gone] == s[..gone] + later[..k] && s[k + gone..] == later[k..];
    EndsInMatchLater(p, s[..gone], later[..k]);
    Assoc(copied, front, PLACEHOLDER + s[k + gone..]);
  }

  /** The scan moves past a copied character or a match that is not the last. */
  lemma Advance(p: Pattern, s: string, n: nat) returns (gone: nat, copied: string)
    requires ReachesEnd(p, s, n)
    requires MatchFront(p, s).Some? ==> ReachesEnd(p, s[MatchFront(p, s).value.end..], n)
    ensures 0 < gone <= |s| && Rewrite(p, s) == copied + Rewrite(p, s[gone..]) && ReachesEnd(p, s[gone..], n)
  {
    match MatchFront(p, s)
    case None =>
      RewriteAtCopy(p, s);
      gone, copied := 1, [s[0]];
    case Some(m) =>
      RewriteAtMatch(p, s, m);
      gone, copied := m.end, s[..m.keep] + PLACEHOLDER;
  }

  /** If some match reaches the end, the last one does. */
  lemma {:induction false} LastCut(p: Pattern, s: string, n: nat) returns (k: nat, front: string)
    requires ReachesEnd(p, s, n)
    ensures |s| < k + n && LastCutAt(p, s, k, front)
    decreases |s|
  {
    hide MatchFront, LastCutAt, Rewrite;
    var m := MatchFront(p, s);
    if m.Some? && !ReachesEnd(p, s[m.value.end..], n) {
      CutHere(p, s, n, m.value);
      k, front := m.value.end, s[..m.value.keep];
    } else {
      var gone, copied := Advance(p, s, n);
      var k1, front1 := LastCut(p, s[gone..], n);
      CutLater(p, s, gone, k1, copied, front1);
      k, front := k1 + gone, copied + front1;
    }
  }
}
