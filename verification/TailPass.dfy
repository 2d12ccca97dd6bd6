/** The RTMP tail pass leaves no match behind, so running it again changes
    nothing, although a segment of the expression may run over a placeholder. */
module TailPass {
  import opened Options
  import opened Rewriting

  /** After its scheme, a match has no two slashes in a row. */
  lemma NoDoubleSlash(s: string, i: nat, j: nat, end: nat, x: nat)
    requires Parse(s, i, j, end) && SchemeEnd(s).value <= x && x + 1 < end
    ensures !(s[x] == '/' && s[x + 1] == '/')
  {
    var h := SchemeEnd(s).value;
    if x < i {
      assert s[x] == s[h..i][x - h];
    } else if x == i {
      assert s[x + 1] == s[i + 1..j][0];
    } else if x < j {
      assert s[x] == s[i + 1..j][x - i - 1];
    } else {
      assert s[x + 1] == s[j + 1..end][x - j];
    }
  }

  /** What a match reads: its first `end` characters decide it. */
  lemma ParseIsLocal(s: string, t: string, i: nat, j: nat, end: nat)
    requires Parse(s, i, j, end) && end <= |t| && t[..end] == s[..end]
    ensures Parse(t, i, j, end)
  {
    SchemeIsLocal(s, t, end);
    SlicesAgree(s, t, end, SchemeEnd(s).value, i);
    SlicesAgree(s, t, end, i + 1, j);
    SlicesAgree(s, t, end, j + 1, end);
    assert t[i] == t[..end][i] == s[i] && t[j] == t[..end][j] == s[j];
  }

  lemma SchemeIsLocal(s: string, t: string, n: nat)
    requires SchemeEnd(s).Some? && SchemeEnd(s).value <= n <= |s| && n <= |t| && t[..n] == s[..n]
    ensures SchemeEnd(t) == SchemeEnd(s)
  {
    assert forall x :: 0 <= x < n ==> t[x] == s[..n][x] == s[x];
  }

  lemma SchemeChars(s: string)
    requires SchemeEnd(s).Some?
    ensures s[0] == 'r' && s[SchemeEnd(s).value - 2] == '/' && s[SchemeEnd(s).value - 1] == '/'
    ensures forall y :: 0 <= y < SchemeEnd(s).value ==> s[y] != '*'
  {
  }

  /** A scheme ends before the first star. */
  lemma SchemeBeforeStar(s: string, n: nat)
    requires n < |s| && s[n] == '*'
    ensures SchemeEnd(s).Some? ==> SchemeEnd(s).value <= n
  {
    if SchemeEnd(s).Some? {
      SchemeChars(s);
    }
  }

  /** `t` copies `s` up to the key of a match `m` of `s` at `k`. */
  ghost predicate CopiesUpTo(s: string, t: string, k: nat, m: Span) {
    && k < |s| && MatchTail(s[k..]) == Some(m)
    && k + m.keep <= |s| && k + m.keep < |t| && t[..k + m.keep] == s[..k + m.keep]
  }

  lemma ConsSlices(c: char, s: string, i: nat, j: nat)
    requires i <= |s| && j <= |s|
    ensures ([c] + s)[i + 1..] == s[i..] && ([c] + s)[..j + 1] == [c] + s[..j]
  {
  }

  lemma CopiesCons(s: string, t: string, k: nat, m: Span, c: char)
    requires CopiesUpTo(s, t, k, m)
    ensures CopiesUpTo([c] + s, [c] + t, k + 1, m)
  {
    hide MatchTail;
    ConsSlices(c, s, k, k + m.keep);
    ConsSlices(c, t, k, k + m.keep);
  }

  lemma CopiesFront(s: string, m: Span)
    requires s != [] && MatchTail(s) == Some(m)
    ensures CopiesUpTo(s, Rewrite(RtmpTail, s), 0, m)
  {
    assert s[0..] == s;
    PlaceholderAt(RtmpTail, s, m);
  }

  /** Up to the key of its first match, the rewritten text is the original. */
  lemma {:induction false} SplitAtFirst(s: string) returns (found: bool, k: nat, m: Span)
    ensures !found ==> Rewrite(RtmpTail, s) == s
    ensures found ==> CopiesUpTo(s, Rewrite(RtmpTail, s), k, m)
    ensures found && k == 0 ==> MatchTail(s).Some?
    decreases |s|
  {
    hide CopiesUpTo, MatchTail, Rewrite;
    if s == [] {
      found, k, m := false, 0, Span(0, 1);
      assert Rewrite(RtmpTail, s) == s by { RewriteNothing(RtmpTail); }
    } else if MatchTail(s).Some? {
      found, k, m := true, 0, MatchTail(s).value;
      CopiesFront(s, m);
    } else {
      assert MatchFront(RtmpTail, s).None?;
      RewriteAtCopy(RtmpTail, s);
      found, k, m := SplitAtFirst(s[1..]);
      assert s == [s[0]] + s[1..];
      if found {
        CopiesCons(s[1..], Rewrite(RtmpTail, s[1..]), k, m, s[0]);
      }
      k := k + 1;
    }
  }

  lemma RewriteNothing(p: Pattern)
    ensures Rewrite(p, "") == ""
  {
  }

  /** A match at the front of `t` cannot reach past the scheme of a match that
      began later, at `k`. */
  lemma EndsBeforeNextKey(s: string, t: string, k: nat, m: Span, i: nat, j: nat, end: nat)
    requires 0 < k < |s| && MatchTail(s[k..]) == Some(m)
    requires k + m.keep <= |s| && k + m.keep < |t| && t[..k + m.keep] == s[..k + m.keep]
    requires Parse(t, i, j, end)
    ensures end <= k + m.keep
  {
    var a, b, c := MatchIsParsed(s[k..]);
    var h := SchemeEnd(s[k..]).value;
    SchemeCopied(s, t, k, m.keep, h);
    if end > k + m.keep {
      NoDoubleSlash(t, i, j, end, k + h - 2);
    }
  }

  /** The later scheme stands in `t` too, after the one at its front. */
  lemma SchemeCopied(s: string, t: string, k: nat, keep: nat, h: nat)
    requires 0 < k < |s| && k + keep <= |s| && k + keep < |t| && t[..k + keep] == s[..k + keep]
    requires SchemeEnd(s[k..]) == Some(h) && h <= keep && SchemeEnd(t).Some?
    ensures t[k + h - 2] == '/' && t[k + h - 1] == '/' && SchemeEnd(t).value <= k + h - 2
  {
    assert forall x :: 0 <= x < k + keep ==> t[x] == t[..k + keep][x] == s[x];
    assert forall x :: 0 <= x < keep ==> t[k + x] == s[k + x] == s[k..][x];
    assert t[k] == 'r' && t[k + h - 3] == ':';
  }

  /** A text with no match at its front has none after the rewriting of its
      later matches either: a match of the result reaching past the first
      placeholder would have to run over the scheme of the match replaced. */
  lemma NoMatchAppears(s: string)
    requires s != [] && MatchTail(s).None?
    ensures MatchTail(Rewrite(RtmpTail, s)).None?
  {
    hide MatchTail, Rewrite, Parse;
    var t := Rewrite(RtmpTail, s);
    var found, k, m := SplitAtFirst(s);
    if MatchTail(t).Some? && found {
      var i, j, end := MatchIsParsed(t);
      EndsBeforeNextKey(s, t, k, m, i, j, end);
      ParseIsCopied(t, s, i, j, end, k + m.keep);
      ParseIsMatched(s, i, j, end);
    }
  }

  lemma ParseIsCopied(s: string, t: string, i: nat, j: nat, end: nat, n: nat)
    requires Parse(s, i, j, end) && end <= n <= |s| && n <= |t| && s[..n] == t[..n]
    ensures Parse(t, i, j, end)
  {
    assert s[..end] == s[..n][..end] == t[..n][..end] == t[..end];
    ParseIsLocal(s, t, i, j, end);
  }

  lemma UnmatchedCons(t: string)
    requires t != [] && MatchTail(t).None? && Unmatched(RtmpTail, t[1..])
    ensures Unmatched(RtmpTail, t)
  {
    forall i | 0 <= i < |t| ensures MatchFront(RtmpTail, t[i..]).None? {
      if i == 0 {
        assert t[0..] == t;
      } else {
        assert t[1..][i - 1..] == t[i..];
      }
    }
  }

  /** The path of a match is found again wherever it is copied. */
  lemma PathIsLocal(s: string, t: string, i: nat, j: nat, end: nat)
    requires Parse(s, i, j, end) && j + 1 <= |t| && t[..j + 1] == s[..j + 1]
    ensures SchemeEnd(t) == SchemeEnd(s)
    ensures SegmentEnd(t, SchemeEnd(s).value) == Some(i) && SegmentEnd(t, i + 1) == Some(j)
  {
    SchemeIsLocal(s, t, j + 1);
    var h := SchemeEnd(s).value;
    SlicesAgree(s, t, j + 1, h, i);
    SlicesAgree(s, t, j + 1, i + 1, j);
    assert t[i] == t[..j + 1][i] == s[i] && t[j] == t[..j + 1][j] == s[j];
    SegmentEndIsUnique(t, h, i);
    SegmentEndIsUnique(t, i + 1, j);
  }

  lemma SlicesAgree(s: string, t: string, n: nat, i: nat, j: nat)
    requires i <= j <= n <= |s| && n <= |t| && t[..n] == s[..n]
    ensures t[i..j] == s[i..j]
  {
    assert t[i..j] == t[..n][i..j] && s[i..j] == s[..n][i..j];
  }

  lemma NoKeyAtStar(t: string, from: nat)
    requires from < |t| && t[from] == '*'
    ensures KeyEnd(t, from).None?
  {
    assert t[from..][0] == '*';
  }

  /** The same prefix followed by a star is not a match. */
  lemma FrontStopsAtStar(s: string, t: string, i: nat, j: nat, end: nat)
    requires Parse(s, i, j, end) && j + 1 < |t| && t[..j + 1] == s[..j + 1] && t[j + 1] == '*'
    ensures MatchTail(t).None?
  {
    PathIsLocal(s, t, i, j, end);
    NoKeyAtStar(t, j + 1);
  }

  /** No scheme begins inside the kept prefix of a match. */
  lemma NoInnerScheme(s: string, t: string, x: nat, i: nat, j: nat, end: nat)
    requires Parse(s, i, j, end) && j + 1 < |t| && t[..j + 1] == s[..j + 1] && t[j + 1] == '*'
    requires 0 < x <= j
    ensures SchemeEnd(t[x..]).None?
  {
    SchemeBeforeStar(t[x..], j + 1 - x);
    if SchemeEnd(t[x..]).Some? {
      var h := SchemeEnd(t[x..]).value;
      InnerSchemeCopied(s, t, x, j, h);
      NoDoubleSlash(s, i, j, end, x + h - 2);
    }
  }

  lemma InnerSchemeCopied(s: string, t: string, x: nat, j: nat, h: nat)
    requires j < |s| && j + 1 < |t| && t[..j + 1] == s[..j + 1] && SchemeEnd(s).Some?
    requires 0 < x <= j && SchemeEnd(t[x..]) == Some(h) && x + h <= j + 1
    ensures s[x + h - 2] == '/' && s[x + h - 1] == '/' && SchemeEnd(s).value <= x + h - 2
  {
    assert forall y :: 0 <= y < h ==> t[x + y] == t[x..][y];
    assert forall y :: 0 <= y < j + 1 ==> t[y] == t[..j + 1][y] == s[y];
    assert s[x] == 'r' && s[x + h - 3] == ':';
  }

  lemma KeptPrefixHasNoMatch(s: string, t: string, m: Span, x: nat)
    requires MatchTail(s) == Some(m) && x < m.keep && m.keep < |t|
    requires t[..m.keep] == s[..m.keep] && t[m.keep] == '*'
    ensures MatchTail(t[x..]).None?
  {
    var a, b, c := MatchIsParsed(s);
    if x == 0 {
      assert t[0..] == t;
      FrontStopsAtStar(s, t, a, b, c);
    } else {
      NoInnerScheme(s, t, x, a, b, c);
    }
  }

  lemma PlaceholderHasNoMatch(t: string, k: nat, x: nat)
    requires k + 14 <= |t| && t[k..k + 14] == PLACEHOLDER && k <= x < k + 14
    ensures MatchTail(t[x..]).None?
  {
    assert t[x..][0] == t[k..k + 14][x - k];
  }

  /** No match begins at positions `lo` to `hi`. */
  ghost predicate NoneFrom(t: string, lo: nat, hi: nat) {
    forall x :: lo <= x < hi && x < |t| ==> MatchTail(t[x..]).None?
  }

  lemma NoneInKept(s: string, t: string, m: Span)
    requires MatchTail(s) == Some(m) && m.keep < |t| && t[..m.keep] == s[..m.keep] && t[m.keep] == '*'
    ensures NoneFrom(t, 0, m.keep)
  {
    forall x | 0 <= x < m.keep ensures MatchTail(t[x..]).None? {
      KeptPrefixHasNoMatch(s, t, m, x);
    }
  }

  lemma NoneInPlaceholder(t: string, k: nat)
    requires k + 14 <= |t| && t[k..k + 14] == PLACEHOLDER
    ensures NoneFrom(t, k, k + 14)
  {
    forall x | k <= x < k + 14 ensures MatchTail(t[x..]).None? {
      PlaceholderHasNoMatch(t, k, x);
    }
  }

  lemma NoneInRest(t: string, n: nat)
    requires n <= |t| && Unmatched(RtmpTail, t[n..])
    ensures NoneFrom(t, n, |t|)
  {
    forall x | n <= x < |t| ensures MatchTail(t[x..]).None? {
      assert t[n..][x - n..] == t[x..];
      assert MatchFront(RtmpTail, t[n..][x - n..]).None?;
    }
  }

  lemma NoneAnywhere(t: string, a: nat, b: nat)
    requires NoneFrom(t, 0, a) && NoneFrom(t, a, b) && NoneFrom(t, b, |t|)
    ensures Unmatched(RtmpTail, t)
  {
  }

  /** The tail pass leaves no match, and so is idempotent. */
  lemma {:induction false} TailPassIdempotent(s: string)
    ensures Unmatched(RtmpTail, Rewrite(RtmpTail, s))
    ensures Rewrite(RtmpTail, Rewrite(RtmpTail, s)) == Rewrite(RtmpTail, s)
    decreases |s|
  {
    var t := Rewrite(RtmpTail, s);
    if s != [] {
      match MatchTail(s)
      case None =>
        NoMatchAppears(s);
        TailPassIdempotent(s[1..]);
        assert t[1..] == Rewrite(RtmpTail, s[1..]);
        UnmatchedCons(t);
      case Some(m) =>
        TailPassIdempotent(s[m.end..]);
        PlaceholderAt(RtmpTail, s, m);
        assert NoneFrom(t, 0, m.keep) by { NoneInKept(s, t, m); }
        assert NoneFrom(t, m.keep, m.keep + 14) by { NoneInPlaceholder(t, m.keep); }
        assert NoneFrom(t, m.keep + 14, |t|) by { NoneInRest(t, m.keep + 14); }
        NoneAnywhere(t, m.keep, m.keep + 14);
    }
    RewriteUnmatched(RtmpTail, t);
  }
}
