/** Leftmost, non-overlapping replacement of a pattern by the redaction
    placeholder: Python's `replace` for a literal, `re.sub` for the RTMP tail
    pattern of app/fanout/redaction.py. A byte is the character of its code. */
module Rewriting {
  import opened Options
  import opened SeqFacts

  const PLACEHOLDER := "***REDACTED***"

  datatype Pattern = Literal(word: string) | RtmpTail

  /** A match at the front of a text keeps `keep` characters and replaces those
      from there up to `end`. */
  datatype Span = Span(keep: nat, end: nat)

  predicate Contains(s: string, word: string) {
    exists i :: 0 <= i <= |s| && word <= s[i..]
  }

  // ---------------------------------------------------------------------
  // The tail pattern
  // ---------------------------------------------------------------------

  datatype CharClass = Segment | KeyChar

  /** `\s` of a bytes pattern. */
  predicate IsSpace(c: char) {
    c == ' ' || (9 as char <= c <= 13 as char)
  }

  /** `[^/\s]` and `[A-Za-z0-9_\-]`. */
  predicate In(cls: CharClass, c: char) {
    match cls
    case Segment => c != '/' && !IsSpace(c)
    case KeyChar => 'A' <= c <= 'Z' || 'a' <= c <= 'z' || '0' <= c <= '9' || c == '_' || c == '-'
  }

  predicate AllIn(cls: CharClass, s: string) {
    forall i :: 0 <= i < |s| ==> In(cls, s[i])
  }

  /** Length of the longest prefix in the class: a greedy `+`. */
  function RunLength(cls: CharClass, s: string): (n: nat)
    ensures n <= |s|
  {
    if s == [] || !In(cls, s[0]) then 0 else 1 + RunLength(cls, s[1..])
  }

  lemma {:induction false} RunIsRun(cls: CharClass, s: string)
    ensures
      var n := RunLength(cls, s);
      AllIn(cls, s[..n]) && (n < |s| ==> !In(cls, s[n]))
  {
    if s != [] && In(cls, s[0]) {
      RunIsRun(cls, s[1..]);
      var n := RunLength(cls, s[1..]);
      assert s[..n + 1] == [s[0]] + s[1..][..n];
    }
  }

  predicate IsRtmp(s: string) {
    |s| >= 4 && s[0] == 'r' && s[1] == 't' && s[2] == 'm' && s[3] == 'p'
  }

  predicate ColonSlashSlash(s: string, i: nat) {
    i + 3 <= |s| && s[i] == ':' && s[i + 1] == '/' && s[i + 2] == '/'
  }

  /** `rtmps?://`: where it ends. */
  function SchemeEnd(s: string): (h: Option<nat>)
    ensures h.Some? ==> 7 <= h.value <= 8 && h.value <= |s| && s[h.value - 1] == '/' && s[h.value - 2] == '/'
  {
    if !IsRtmp(s) then None
    else if ColonSlashSlash(s, 4) then Some(7)
    else if |s| > 4 && s[4] == 's' && ColonSlashSlash(s, 5) then Some(8)
    else None
  }

  /** `[^/\s]+/` from `from`: where its slash stands. */
  function SegmentEnd(s: string, from: nat): (i: Option<nat>)
    requires from <= |s|
    ensures i.Some? ==> from < i.value < |s| && s[i.value] == '/'
  {
    var i := from + RunLength(Segment, s[from..]);
    if i == from || i == |s| || s[i] != '/' then None else Some(i)
  }

  /** `[A-Za-z0-9_\-]{8,}` from `from`: where it ends. */
  function KeyEnd(s: string, from: nat): (e: Option<nat>)
    requires from <= |s|
    ensures e.Some? ==> from + 8 <= e.value <= |s|
  {
    var n := RunLength(KeyChar, s[from..]);
    if n < 8 then None else Some(from + n)
  }

  /** The greedy matcher at the front of `s`. */
  function MatchTail(s: string): (m: Option<Span>)
    ensures m.Some? ==> 11 <= m.value.keep && m.value.keep + 8 <= m.value.end <= |s|
  {
    match SchemeEnd(s)
    case None => None
    case Some(h) =>
      match SegmentEnd(s, h)
      case None => None
      case Some(i) =>
        match SegmentEnd(s, i + 1)
        case None => None
        case Some(j) =>
          match KeyEnd(s, j + 1)
          case None => None
          case Some(end) => Some(Span(j + 1, end))
  }

  /** The regular expression, declaratively: a scheme, two non-empty segments
      ended by slashes at `i` and `j`, and key characters up to `end`. */
  ghost predicate Parse(s: string, i: nat, j: nat, end: nat) {
    && SchemeEnd(s).Some?
    && var h := SchemeEnd(s).value;
    && h < i && i + 1 < j && j + 9 <= end <= |s|
    && AllIn(Segment, s[h..i]) && s[i] == '/'
    && AllIn(Segment, s[i + 1..j]) && s[j] == '/'
    && AllIn(KeyChar, s[j + 1..end])
  }

  lemma ClassAt(cls: CharClass, s: string, n: nat, k: nat)
    requires n <= |s| && k < |s| && AllIn(cls, s[..n])
    ensures k < n ==> In(cls, s[k])
  {
    if k < n {
      assert s[k] == s[..n][k];
    }
  }

  lemma RunIsMaximal(cls: CharClass, s: string, n: nat)
    requires n <= |s| && AllIn(cls, s[..n])
    ensures n <= RunLength(cls, s)
  {
    var m := RunLength(cls, s);
    RunIsRun(cls, s);
    if m < n {
      ClassAt(cls, s, n, m);
    }
  }

  /** A greedy run over `s[from..to]` stops at a character outside the class. */
  lemma RunStops(cls: CharClass, s: string, from: nat, to: nat)
    requires from <= to < |s| && AllIn(cls, s[from..to]) && !In(cls, s[to])
    ensures RunLength(cls, s[from..]) == to - from
  {
    var m := RunLength(cls, s[from..]);
    assert s[from..][..to - from] == s[from..to];
    RunIsMaximal(cls, s[from..], to - from);
    RunIsRun(cls, s[from..]);
    ClassAt(cls, s[from..], m, to - from);
  }

  /** The matcher finds a match exactly when the expression has one at the
      front; there is only one way to place the slashes, and the key it takes
      is the longest. */
  lemma MatcherIsTheExpression(s: string)
    ensures MatchTail(s).Some? <==> exists i: nat, j: nat, end: nat :: Parse(s, i, j, end)
    ensures forall i: nat, j: nat, end: nat :: Parse(s, i, j, end) ==>
      MatchTail(s).Some? && MatchTail(s).value.keep == j + 1 && end <= MatchTail(s).value.end
    ensures MatchTail(s).Some? ==>
      exists i: nat, j: nat, end: nat :: Parse(s, i, j, end) && MatchTail(s).value == Span(j + 1, end)
  {
    forall i: nat, j: nat, end: nat | Parse(s, i, j, end)
      ensures MatchTail(s).Some? && MatchTail(s).value.keep == j + 1 && end <= MatchTail(s).value.end
    {
      ParseIsMatched(s, i, j, end);
    }
    if MatchTail(s).Some? {
      var i, j, end := MatchIsParsed(s);
    }
  }

  lemma SegmentEndIsUnique(s: string, from: nat, i: nat)
    requires from < i < |s| && AllIn(Segment, s[from..i]) && s[i] == '/'
    ensures SegmentEnd(s, from) == Some(i)
  {
    RunStops(Segment, s, from, i);
  }

  lemma SegmentEndIsSegment(s: string, from: nat)
    requires from <= |s| && SegmentEnd(s, from).Some?
    ensures AllIn(Segment, s[from..SegmentEnd(s, from).value])
  {
    var n := RunLength(Segment, s[from..]);
    RunIsRun(Segment, s[from..]);
    assert s[from..][..n] == s[from..from + n];
  }

  lemma KeyEndIsLongest(s: string, from: nat, end: nat)
    requires from + 8 <= end <= |s| && AllIn(KeyChar, s[from..end])
    ensures KeyEnd(s, from).Some? && end <= KeyEnd(s, from).value
  {
    assert s[from..][..end - from] == s[from..end];
    RunIsMaximal(KeyChar, s[from..], end - from);
  }

  lemma KeyEndIsKey(s: string, from: nat)
    requires from <= |s| && KeyEnd(s, from).Some?
    ensures AllIn(KeyChar, s[from..KeyEnd(s, from).value])
  {
    var n := RunLength(KeyChar, s[from..]);
    RunIsRun(KeyChar, s[from..]);
    assert s[from..][..n] == s[from..from + n];
  }

  lemma ParseIsMatched(s: string, i: nat, j: nat, end: nat)
    requires Parse(s, i, j, end)
    ensures MatchTail(s).Some? && MatchTail(s).value.keep == j + 1 && end <= MatchTail(s).value.end
  {
    hide SchemeEnd, SegmentEnd, KeyEnd;
    SegmentEndIsUnique(s, SchemeEnd(s).value, i);
    SegmentEndIsUnique(s, i + 1, j);
    KeyEndIsLongest(s, j + 1, end);
  }

  lemma MatchIsParsed(s: string) returns (i: nat, j: nat, end: nat)
    requires MatchTail(s).Some?
    ensures Parse(s, i, j, end) && MatchTail(s).value == Span(j + 1, end)
  {
    var h := SchemeEnd(s).value;
    i := SegmentEnd(s, h).value;
    j := SegmentEnd(s, i + 1).value;
    end := KeyEnd(s, j + 1).value;
    SegmentEndIsSegment(s, h);
    SegmentEndIsSegment(s, i + 1);
    KeyEndIsKey(s, j + 1);
  }

  // ---------------------------------------------------------------------
  // Replacement
  // ---------------------------------------------------------------------

  /** The match of a pattern at the front of `s`. */
  function MatchFront(p: Pattern, s: string): (m: Option<Span>)
    ensures m.Some? ==> m.value.keep < m.value.end <= |s|
  {
    match p
    case Literal(word) => if word != "" && word <= s then Some(Span(0, |word|)) else None
    case RtmpTail => MatchTail(s)
  }

  function Rewrite(p: Pattern, s: string): string
    decreases |s|
  {
    if s == [] then []
    else match MatchFront(p, s)
         case None => [s[0]] + Rewrite(p, s[1..])
         case Some(m) => s[..m.keep] + PLACEHOLDER + Rewrite(p, s[m.end..])
  }

  lemma RewriteAtCopy(p: Pattern, s: string)
    requires s != "" && MatchFront(p, s).None?
    ensures Rewrite(p, s) == [s[0]] + Rewrite(p, s[1..])
  {
  }

  lemma RewriteAtMatch(p: Pattern, s: string, m: Span)
    requires s != "" && MatchFront(p, s) == Some(m)
    ensures Rewrite(p, s) == s[..m.keep] + PLACEHOLDER + Rewrite(p, s[m.end..])
  {
  }

  /** No suffix of `s` begins with a match. */
  ghost predicate Unmatched(p: Pattern, s: string) {
    forall i :: 0 <= i < |s| ==> MatchFront(p, s[i..]).None?
  }

  lemma {:induction false} RewriteUnmatched(p: Pattern, s: string)
    requires Unmatched(p, s)
    ensures Rewrite(p, s) == s
    decreases |s|
  {
    if s != [] {
      assert s[0..] == s;
      assert MatchFront(p, s).None?;
      assert Unmatched(p, s[1..]) by {
        forall i | 0 <= i < |s| - 1 ensures MatchFront(p, s[1..][i..]).None? {
          assert s[1..][i..] == s[i + 1..];
        }
      }
      RewriteUnmatched(p, s[1..]);
    }
  }

  /** No match begins in `head` when `tail` follows it. */
  ghost predicate NoneIn(p: Pattern, head: string, tail: string) {
    forall i :: 0 <= i < |head| ==> MatchFront(p, head[i..] + tail).None?
  }

  lemma NoneInTail(p: Pattern, head: string, tail: string)
    requires head != "" && NoneIn(p, head, tail)
    ensures MatchFront(p, head + tail).None? && NoneIn(p, head[1..], tail)
  {
    assert head[0..] == head;
    forall i | 0 <= i < |head| - 1 ensures MatchFront(p, head[1..][i..] + tail).None? {
      assert head[1..][i..] == head[i + 1..];
    }
  }

  lemma RewriteCopies(p: Pattern, c: char, s: string)
    requires MatchFront(p, [c] + s).None?
    ensures Rewrite(p, [c] + s) == [c] + Rewrite(p, s)
  {
    assert ([c] + s)[1..] == s;
  }

  /** Text before the first match is copied. */
  lemma {:induction false} RewriteSkips(p: Pattern, head: string, tail: string)
    requires NoneIn(p, head, tail)
    ensures Rewrite(p, head + tail) == head + Rewrite(p, tail)
    decreases |head|
  {
    if head == "" {
      assert head + tail == tail;
    } else {
      var later := head[1..] + tail;
      HeadFirst(head, tail);
      HeadFirst(head, Rewrite(p, tail));
      assert Rewrite(p, later) == head[1..] + Rewrite(p, tail) by {
        NoneInTail(p, head, tail);
        RewriteSkips(p, head[1..], tail);
      }
      assert Rewrite(p, [head[0]] + later) == [head[0]] + Rewrite(p, later) by {
        NoneInTail(p, head, tail);
        RewriteCopies(p, head[0], later);
      }
    }
  }

  // ---------------------------------------------------------------------
  // Words and placeholders
  // ---------------------------------------------------------------------

  /** The two agree as far as the shorter one goes. */
  predicate Agree(a: string, b: string) { a <= b || b <= a }

  /** No placeholder can begin inside or right before the rest of `v`. */
  ghost predicate Clear(v: string) {
    forall k :: 0 <= k < |v| ==> !Agree(v[k..], PLACEHOLDER)
  }

  /** A word that can overlap a placeholder in no way: neither can begin inside
      the other so that they agree from there on. */
  ghost predicate Separable(word: string) {
    word != "" && Clear(word) && forall k :: 0 <= k < |PLACEHOLDER| ==> !Agree(word, PLACEHOLDER[k..])
  }

  lemma PrefixesAgree(t: string, a: string, b: string)
    requires a <= t && b <= t
    ensures Agree(a, b)
  {
    if |a| <= |b| {
      assert a == t[..|a|] == b[..|a|];
    } else {
      assert b == t[..|b|] == a[..|b|];
    }
  }

  lemma StarFreeIsClear(v: string)
    requires '*' !in v
    ensures Clear(v)
  {
    forall k | 0 <= k < |v| ensures !Agree(v[k..], PLACEHOLDER) {
      assert v[k..][0] == v[k] != PLACEHOLDER[0];
    }
  }

  /** A clear prefix of the rewritten text was there before, and no literal
      match began inside it. */
  lemma {:induction false} PrefixIsOld(p: Pattern, s: string, v: string)
    requires v <= Rewrite(p, s) && Clear(v)
    ensures v <= s
    ensures p.Literal? ==> forall i :: 0 <= i < |v| ==> MatchFront(p, s[i..]).None?
    decreases |s|
  {
    if s != [] && v != [] {
      match MatchFront(p, s)
      case None =>
        ClearTail(v);
        assert Rewrite(p, s)[1..] == Rewrite(p, s[1..]);
        PrefixIsOld(p, s[1..], v[1..]);
        assert v == [v[0]] + v[1..];
        forall i | 0 <= i < |v| && p.Literal? ensures MatchFront(p, s[i..]).None? {
          if i > 0 {
            assert s[1..][i - 1..] == s[i..];
          }
        }
      case Some(m) =>
        PlaceholderAt(p, s, m);
        ClearStops(Rewrite(p, s), v, m.keep);
        assert v <= s[..m.keep];
    }
  }

  /** A clear prefix ends before a placeholder begins. */
  lemma ClearStops(t: string, v: string, k: nat)
    requires v <= t && Clear(v) && k <= |t| && PLACEHOLDER <= t[k..]
    ensures v <= t[..k]
  {
    if |v| > k {
      assert v[k..] <= t[k..];
      PrefixesAgree(t[k..], v[k..], PLACEHOLDER);
    }
  }

  lemma ClearTail(v: string)
    requires Clear(v) && v != ""
    ensures Clear(v[1..])
  {
    forall k | 0 <= k < |v[1..]| ensures !Agree(v[1..][k..], PLACEHOLDER) {
      assert v[1..][k..] == v[k + 1..];
    }
  }

  lemma PlaceholderAt(p: Pattern, s: string, m: Span)
    requires s != [] && MatchFront(p, s) == Some(m)
    ensures
      var t := Rewrite(p, s);
      && |t| >= m.keep + 14 && t[..m.keep] == s[..m.keep]
      && t[m.keep..m.keep + 14] == PLACEHOLDER && t[m.keep] == '*' && PLACEHOLDER <= t[m.keep..]
      && t[m.keep + 14..] == Rewrite(p, s[m.end..])
  {
  }

  /** A separable word found in the rewritten text was in the original: no
      replacement creates one. */
  lemma {:induction false} NothingNew(p: Pattern, s: string, word: string, i: nat)
    requires Separable(word) && i <= |Rewrite(p, s)| && word <= Rewrite(p, s)[i..]
    ensures Contains(s, word)
    ensures p != Literal(word)
    decreases |s|
  {
    var t := Rewrite(p, s);
    assert s != [];
    match MatchFront(p, s)
    case None =>
      if i == 0 {
        assert t[0..] == t && s[0..] == s;
        PrefixIsOld(p, s, word);
      } else {
        assert t[i..] == Rewrite(p, s[1..])[i - 1..];
        NothingNew(p, s[1..], word, i - 1);
        Deeper(s, word, 1);
      }
    case Some(m) =>
      PlaceholderAt(p, s, m);
      if i < m.keep + 14 {
        FoundBefore(s, t, word, i, m.keep);
      } else {
        assert t[i..] == t[m.keep + 14..][i - m.keep - 14..];
        NothingNew(p, s[m.end..], word, i - m.keep - 14);
        Deeper(s, word, m.end);
      }
  }

  /** A separable word found before the end of a placeholder is old. */
  lemma FoundBefore(s: string, t: string, word: string, i: nat, k: nat)
    requires k <= |s| && k <= |t| && t[..k] == s[..k] && PLACEHOLDER <= t[k..]
    requires Separable(word) && i <= |t| && i < k + 14 && word <= t[i..]
    ensures Contains(s, word) && k > 0
  {
    MissesPlaceholder(t, word, i, k);
    InPrefix(s, t, word, i, k);
  }

  /** A separable word that starts before the end of a placeholder ends before
      it starts. */
  lemma MissesPlaceholder(t: string, word: string, i: nat, k: nat)
    requires k <= |t| && PLACEHOLDER <= t[k..] && i <= |t| && word <= t[i..]
    requires i < k + 14 && Separable(word)
    ensures i + |word| <= k
  {
    if k < i {
      assert PLACEHOLDER[i - k..] <= t[k..][i - k..] == t[i..];
      PrefixesAgree(t[i..], word, PLACEHOLDER[i - k..]);
    } else if i + |word| > k {
      assert word[k - i..] <= t[i..][k - i..] == t[k..];
      PrefixesAgree(t[k..], word[k - i..], PLACEHOLDER);
    }
  }

  lemma InPrefix(s: string, t: string, word: string, i: nat, k: nat)
    requires k <= |s| && k <= |t| && t[..k] == s[..k] && i + |word| <= k && word <= t[i..]
    ensures Contains(s, word)
  {
    assert word == t[i..][..|word|] == t[..k][i..i + |word|] == s[i..][..|word|];
    assert word <= s[i..];
  }

  lemma Deeper(s: string, word: string, n: nat)
    requires n <= |s| && Contains(s[n..], word)
    ensures Contains(s, word)
  {
    var i :| 0 <= i <= |s[n..]| && word <= s[n..][i..];
    assert s[n..][i..] == s[n + i..];
  }

  /** One literal pass removes every occurrence of a separable word, and any
      pass leaves a word absent if it was. */
  lemma PassRemoves(p: Pattern, s: string, word: string)
    requires Separable(word)
    ensures !Contains(Rewrite(Literal(word), s), word)
    ensures !Contains(s, word) ==> !Contains(Rewrite(p, s), word)
  {
    if Contains(Rewrite(Literal(word), s), word) {
      var i :| 0 <= i <= |Rewrite(Literal(word), s)| && word <= Rewrite(Literal(word), s)[i..];
      NothingNew(Literal(word), s, word, i);
    }
    if Contains(Rewrite(p, s), word) {
      var i :| 0 <= i <= |Rewrite(p, s)| && word <= Rewrite(p, s)[i..];
      NothingNew(p, s, word, i);
    }
  }

  /** A word that does not occur is not replaced. */
  lemma AbsentIsKept(s: string, word: string)
    requires !Contains(s, word)
    ensures Rewrite(Literal(word), s) == s
  {
    forall i | 0 <= i < |s| ensures MatchFront(Literal(word), s[i..]).None? {
    }
    RewriteUnmatched(Literal(word), s);
  }

  lemma ShorterIsKept(s: string, word: string)
    requires |s| < |word|
    ensures Rewrite(Literal(word), s) == s
  {
    AbsentIsKept(s, word);
  }

  lemma WordAtFront(word: string, rest: string)
    requires word != ""
    ensures Rewrite(Literal(word), word + rest) == PLACEHOLDER + Rewrite(Literal(word), rest)
  {
    var s := word + rest;
    assert s[|word|..] == rest;
    assert MatchFront(Literal(word), s) == Some(Span(0, |word|));
    assert s[..0] + PLACEHOLDER == PLACEHOLDER;
  }

  // ---------------------------------------------------------------------
  // When a literal pass can leave its word behind
  // ---------------------------------------------------------------------

  /** What is left of `s` beyond its first `n` characters. */
  function Beyond(s: string, n: nat): string {
    if |s| >= n then s[n..] else ""
  }

  /** `word` cut where a placeholder may take over: with the placeholder put in
      from there on it is complete again. */
  lemma CompletedWord(word: string, k: nat)
    requires k <= |word| && Agree(word[k..], PLACEHOLDER)
    ensures word <= word[..k] + (PLACEHOLDER + Beyond(word, k + 14))
  {
    var tail := word[k..];
    assert word == word[..k] + tail;
    CompletedTail(tail);
    assert Beyond(tail, 14) == Beyond(word, k + 14);
    PrefixUnder(word[..k], tail, PLACEHOLDER + Beyond(tail, 14));
  }

  lemma CompletedTail(tail: string)
    requires Agree(tail, PLACEHOLDER)
    ensures tail <= PLACEHOLDER + Beyond(tail, 14)
  {
    if PLACEHOLDER <= tail {
      assert tail == PLACEHOLDER + tail[14..];
    }
  }

  lemma PrefixUnder(front: string, a: string, b: string)
    requires a <= b
    ensures front + a <= front + b
  {
  }

  /** No copy of the word begins before the second one in `word[..k] + word`,
      if the word's front character differs from the one at `k`. */
  lemma NoEarlierCopy(word: string, k: nat, rest: string)
    requires k < |word| && word[k] != word[0]
    ensures NoneIn(Literal(word), word[..k], word + rest)
  {
    forall i | 0 <= i < k ensures MatchFront(Literal(word), word[..k][i..] + (word + rest)).None? {
      var s := word[..k][i..] + (word + rest);
      assert s[0] == word[i] && s[k] == (word + rest)[i] == word[i];
    }
  }

  lemma OneReplaced(word: string, front: string, rest: string)
    requires word != "" && |rest| < |word| && NoneIn(Literal(word), front, word + rest)
    ensures Rewrite(Literal(word), front + (word + rest)) == front + (PLACEHOLDER + rest)
  {
    RewriteSkips(Literal(word), front, word + rest);
    WordAtFront(word, rest);
    ShorterIsKept(rest, word);
  }

  /** A word the placeholder can complete: its front, then the word itself,
      turns into the front and a placeholder. */
  lemma PlaceholderCompletes(word: string, k: nat)
    requires k < |word| && Agree(word[k..], PLACEHOLDER) && word[0] != '*'
    ensures
      var rest := Beyond(word, k + 14);
      var out := word[..k] + (PLACEHOLDER + rest);
      Rewrite(Literal(word), word[..k] + (word + rest)) == out && word <= out
  {
    var rest := Beyond(word, k + 14);
    assert Rewrite(Literal(word), word[..k] + (word + rest)) == word[..k] + (PLACEHOLDER + rest) by {
      AgreeStartsWithStar(word[k..]);
      NoEarlierCopy(word, k, rest);
      OneReplaced(word, word[..k], rest);
    }
    CompletedWord(word, k);
  }

  lemma AgreeStartsWithStar(s: string)
    requires s != "" && Agree(s, PLACEHOLDER)
    ensures s[0] == '*'
  {
  }

  /** A word that a placeholder can begin: the word, and what of it reaches
      beyond the placeholder. */
  lemma PlaceholderBegins(word: string, k: nat)
    requires word != "" && k < 14 && Agree(word, PLACEHOLDER[k..])
    ensures
      var rest := Beyond(word, 14 - k);
      Rewrite(Literal(word), word + rest) == PLACEHOLDER + rest && Contains(PLACEHOLDER + rest, word)
  {
    var rest := Beyond(word, 14 - k);
    WordAtFront(word, rest);
    ShorterIsKept(rest, word);
    BegunWord(PLACEHOLDER, word, k);
  }

  lemma BegunWord(a: string, word: string, k: nat)
    requires k <= |a| && Agree(word, a[k..])
    ensures Contains(a + Beyond(word, |a| - k), word)
  {
    var out := a + Beyond(word, |a| - k);
    assert out[k..] == a[k..] + Beyond(word, |a| - k);
    assert word <= out[k..];
  }

  /** The literal pass leaves its word in `s`. */
  predicate Survives(word: string, s: string) {
    Contains(Rewrite(Literal(word), s), word)
  }

  lemma UnseparableSurvives(word: string) returns (s: string)
    requires word != "" && !Separable(word)
    ensures Survives(word, s)
  {
    if word[0] == '*' {
      assert PLACEHOLDER[13..] == "*" <= word;
      s := word + Beyond(word, 1);
      PlaceholderBegins(word, 13);
    } else if j :| 0 <= j < 14 && Agree(word, PLACEHOLDER[j..]) {
      s := word + Beyond(word, 14 - j);
      PlaceholderBegins(word, j);
    } else {
      var k :| 0 <= k < |word| && Agree(word[k..], PLACEHOLDER);
      s := word[..k] + (word + Beyond(word, k + 14));
      PlaceholderCompletes(word, k);
      assert word <= Rewrite(Literal(word), s)[0..];
    }
  }

  /** A literal pass removes its word from every text exactly when the word is
      separable. */
  lemma RemovesExactlySeparable(word: string)
    requires word != ""
    ensures (exists s :: Survives(word, s)) <==> !Separable(word)
  {
    if Separable(word) {
      forall s ensures !Survives(word, s) {
        PassRemoves(Literal(word), s, word);
      }
    } else {
      var s := UnseparableSurvives(word);
    }
  }
}
