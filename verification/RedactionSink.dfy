/** The per-worker stderr sanitizer of app/fanout/redaction.py: a line buffer
    over two redaction passes, with forced splits of overlong lines. */
module RedactionSink {
  import opened Options
  import opened SeqFacts
  import opened Rewriting
  import opened TailPass
  import opened Lines

  const MAX_LINE_LEN := 4096

  /** `_redact_line`: the worker's own URL, then the generic tail pattern. */
  function RedactLine(url: string, line: string): string {
    Rewrite(RtmpTail, if Contains(line, url) then Rewrite(Literal(url), line) else line)
  }

  /** The URLs workers get: app/fanout/ffmpeg_urls.py:57 refuses any other. */
  predicate WorkerUrl(url: string)
    ensures WorkerUrl(url) ==> Settles(url)
  {
    assert IsRtmp(url) ==> url[0] == 'r' && url[0] !in PLACEHOLDER;
    SchemeEnd(url).Some?
  }

  /** A URL that feeding is proved to come to an end for: it is as long as the
      placeholder, or has a character that the placeholder lacks. */
  predicate Settles(url: string) {
    |url| >= |PLACEHOLDER| || exists i :: 0 <= i < |url| && url[i] !in PLACEHOLDER
  }

  /** The first such character of the URL, if it has any. */
  function Mark(url: string): (c: char)
    ensures c !in PLACEHOLDER
    ensures (exists i :: 0 <= i < |url| && url[i] !in PLACEHOLDER) ==> c in url
  {
    if url == "" then 'r' else if url[0] !in PLACEHOLDER then url[0] else Mark(url[1..])
  }

  // ---------------------------------------------------------------------
  // What one pass over a line guarantees
  // ---------------------------------------------------------------------

  /** The redaction of some line can hold this URL: it has no match of the tail
      pattern of its own, and from one of its characters on it agrees with the
      placeholder, which can therefore complete it. */
  ghost predicate CanSurvive(url: string) {
    Unmatched(RtmpTail, url) && !Clear(url)
  }

  lemma UnstarredCannotSurvive(url: string)
    requires '*' !in url
    ensures !CanSurvive(url)
  {
    StarFreeIsClear(url);
  }

  lemma ClearUrlIsSeparable(url: string)
    requires WorkerUrl(url) && Clear(url)
    ensures Separable(url)
  {
    forall k | 0 <= k < |PLACEHOLDER| ensures !Agree(url, PLACEHOLDER[k..]) {
      assert PLACEHOLDER[k..][0] == PLACEHOLDER[k] != 'r';
    }
  }

  lemma MatchExtends(s: string, t: string)
    requires s <= t && MatchTail(s).Some?
    ensures MatchTail(t).Some?
  {
    var i, j, end := MatchIsParsed(s);
    assert t[..end] == t[..|s|][..end] == s[..end];
    ParseIsLocal(s, t, i, j, end);
    ParseIsMatched(t, i, j, end);
  }

  lemma PartIsUnmatched(t: string, part: string)
    requires Unmatched(RtmpTail, t) && Contains(t, part)
    ensures Unmatched(RtmpTail, part)
  {
    var i :| 0 <= i <= |t| && part <= t[i..];
    forall x | 0 <= x < |part| ensures MatchFront(RtmpTail, part[x..]).None? {
      assert part[x..] <= t[i..][x..] == t[i + x..];
      assert MatchFront(RtmpTail, t[i + x..]).None?;
      if MatchTail(part[x..]).Some? {
        MatchExtends(part[x..], t[i + x..]);
      }
    }
  }

  /** No redacted line contains a URL that cannot survive. */
  lemma RedactedLineHidesUrl(url: string, line: string)
    requires WorkerUrl(url) && !CanSurvive(url)
    ensures !Contains(RedactLine(url, line), url)
  {
    var first := if Contains(line, url) then Rewrite(Literal(url), line) else line;
    if Clear(url) {
      ClearUrlIsSeparable(url);
      PassRemoves(Literal(url), line, url);
      PassRemoves(RtmpTail, first, url);
    } else {
      TailPassIdempotent(first);
      if Contains(RedactLine(url, line), url) {
        PartIsUnmatched(RedactLine(url, line), url);
      }
    }
  }

  lemma KeyCharAt(s: string, i: nat, j: nat, end: nat, x: nat)
    requires Parse(s, i, j, end) && j < x < end
    ensures In(KeyChar, s[x])
  {
    assert s[x] == s[j + 1..end][x - j - 1];
  }

  /** A match with a placeholder behind it ends before that. */
  lemma ParseBeforePlaceholder(front: string, i: nat, j: nat, end: nat)
    requires Parse(front + PLACEHOLDER, i, j, end)
    ensures end <= |front|
  {
    var s := front + PLACEHOLDER;
    assert forall x :: |front| <= x < |s| ==> s[x] == PLACEHOLDER[x - |front|] != '/';
    assert j < |front|;
    if end > |front| {
      KeyCharAt(s, i, j, end, |front|);
    }
  }

  lemma CutIsUnmatched(url: string, k: nat)
    requires k <= |url| && Unmatched(RtmpTail, url)
    ensures Unmatched(RtmpTail, url[..k] + PLACEHOLDER)
  {
    var out := url[..k] + PLACEHOLDER;
    forall x | 0 <= x < |out| ensures MatchFront(RtmpTail, out[x..]).None? {
      if k <= x {
        assert out[x..][0] == PLACEHOLDER[x - k] != 'r';
      } else {
        assert out[x..] == url[x..k] + PLACEHOLDER && url[x..k] <= url[x..];
        assert MatchFront(RtmpTail, url[x..]).None?;
        NoneBeforePlaceholder(url[x..k], url[x..]);
      }
    }
  }

  lemma NoneBeforePlaceholder(front: string, s: string)
    requires front <= s && MatchTail(s).None?
    ensures MatchTail(front + PLACEHOLDER).None?
  {
    var t := front + PLACEHOLDER;
    if MatchTail(t).Some? {
      var i, j, end := MatchIsParsed(t);
      ParseBeforePlaceholder(front, i, j, end);
      assert t[..end] == front[..end] == s[..end];
      ParseIsLocal(t, s, i, j, end);
      ParseIsMatched(s, i, j, end);
    }
  }

  /** The URL with a placeholder put in from `k` on. */
  function Completed(url: string, k: nat): string
    requires k <= |url|
  {
    url[..k] + (PLACEHOLDER + Beyond(url, k + 14))
  }

  lemma CompletedIsUnmatched(url: string, k: nat)
    requires k <= |url| && Unmatched(RtmpTail, url) && Agree(url[k..], PLACEHOLDER)
    ensures Unmatched(RtmpTail, Completed(url, k))
  {
    if PLACEHOLDER <= url[k..] {
      assert url[k..] == PLACEHOLDER + url[k..][14..];
      assert url == url[..k] + url[k..] == Completed(url, k);
    } else {
      assert PLACEHOLDER + Beyond(url, k + 14) == PLACEHOLDER;
      CutIsUnmatched(url, k);
    }
  }

  /** A line that leaves a URL that can survive, and what redacts it to. */
  lemma SurvivingLine(url: string) returns (line: string)
    requires WorkerUrl(url) && CanSurvive(url)
    ensures url <= RedactLine(url, line) && Unmatched(RtmpTail, RedactLine(url, line))
  {
    var k :| 0 <= k < |url| && Agree(url[k..], PLACEHOLDER);
    var rest := Beyond(url, k + 14);
    line := url[..k] + (url + rest);
    assert Contains(line, url) by {
      assert line[k..] == url + rest;
    }
    PlaceholderCompletes(url, k);
    CompletedIsUnmatched(url, k);
    RewriteUnmatched(RtmpTail, Completed(url, k));
  }

  /** A URL can be left in the redaction of some line exactly when it can
      survive: then the placeholder put in place of one occurrence completes
      another. */
  lemma UrlSurvivesExactlyIf(url: string)
    requires WorkerUrl(url)
    ensures (exists line :: Contains(RedactLine(url, line), url)) <==> CanSurvive(url)
  {
    if CanSurvive(url) {
      var line := SurvivingLine(url);
      assert url <= RedactLine(url, line)[0..];
      assert Contains(RedactLine(url, line), url);
    } else {
      forall line ensures !Contains(RedactLine(url, line), url) {
        RedactedLineHidesUrl(url, line);
      }
    }
  }

  /** A short key that ends in a star, for one, can survive; a match of the tail
      pattern has at least 19 characters. */
  lemma ShortStarredKeySurvives()
    ensures WorkerUrl("rtmp://a/b/key*") && CanSurvive("rtmp://a/b/key*")
  {
    var url := "rtmp://a/b/key*";
    assert Agree(url[14..], PLACEHOLDER);
  }

  /** Redacting a redacted line changes nothing. */
  ghost predicate Idempotent(url: string, line: string) {
    RedactLine(url, RedactLine(url, line)) == RedactLine(url, line)
  }

  /** Text that goes back into the buffer after a forced split is not harmed by
      the next pass, again exactly unless the URL can survive. */
  lemma RedactLineIdempotentExactlyUnless(url: string)
    requires WorkerUrl(url)
    ensures (forall line :: Idempotent(url, line)) <==> !CanSurvive(url)
  {
    if CanSurvive(url) {
      var line := SurvivingLine(url);
      SurvivorIsRedacted(url, RedactLine(url, line));
      assert !Idempotent(url, line);
    } else {
      forall line ensures Idempotent(url, line) {
        RedactedLineHidesUrl(url, line);
        TailPassIdempotent(if Contains(line, url) then Rewrite(Literal(url), line) else line);
      }
    }
  }

  lemma SurvivorIsRedacted(url: string, s: string)
    requires WorkerUrl(url) && url <= s
    ensures RedactLine(url, s) != s
  {
    assert url <= s[0..];
    var first := Rewrite(Literal(url), s);
    PlaceholderAt(Literal(url), s, Span(0, |url|));
    assert first[0] == '*';
    assert MatchFront(RtmpTail, first).None?;
  }

  lemma {:induction false} RewriteOneLine(p: Pattern, s: string)
    requires OneLine(s)
    ensures OneLine(Rewrite(p, s))
    decreases |s|
  {
    if s != [] {
      match MatchFront(p, s)
      case None => RewriteOneLine(p, s[1..]);
      case Some(m) =>
        RewriteOneLine(p, s[m.end..]);
        assert OneLine(s[..m.keep]);
    }
  }

  lemma TwoPasses(url: string, line: string)
    ensures RedactLine(url, line) == Rewrite(RtmpTail, Rewrite(Literal(url), line))
  {
    if !Contains(line, url) {
      AbsentIsKept(line, url);
    }
  }

  lemma RedactedLineIsOneLine(url: string, line: string)
    requires OneLine(line)
    ensures OneLine(RedactLine(url, line))
  {
    RewriteOneLine(Literal(url), line);
    RewriteOneLine(RtmpTail, if Contains(line, url) then Rewrite(Literal(url), line) else line);
  }

  // ---------------------------------------------------------------------
  // Why feeding terminates
  // ---------------------------------------------------------------------

  /** A slash with a redactable key after it. */
  predicate KeyFollows(s: string) {
    |s| >= 9 && s[0] == '/' && AllIn(KeyChar, s[1..9])
  }

  /** What the front character of a text weighs: more if a key follows it or if
      it is the marked character, which the URL may have and no placeholder has. */
  function Cost(mark: char, s: string): nat
    requires s != ""
  {
    1 + (if KeyFollows(s) then 6 else 0) + if s[0] == mark then 13 else 0
  }

  /** Replacing this word by a placeholder adds no weight. */
  predicate Bulky(mark: char, word: string) {
    |word| >= 14 || mark in word
  }

  function Weight(mark: char, s: string): nat {
    if s == "" then 0 else Cost(mark, s) + Weight(mark, s[1..])
  }

  lemma {:induction false} WeightOfSuffix(mark: char, s: string, n: nat)
    requires n <= |s|
    ensures Weight(mark, s[n..]) + n <= Weight(mark, s)
  {
    if n > 0 {
      WeightOfSuffix(mark, s[1..], n - 1);
      assert s[1..][n - 1..] == s[n..];
    } else {
      assert s[0..] == s;
    }
  }

  /** A literal or key taken out weighs its length, and 13 more if marked. */
  lemma {:induction false} WeightOfPrefix(mark: char, a: string, y: string)
    ensures Weight(mark, a + y) >= |a| + (if mark in a then 13 else 0) + Weight(mark, y)
  {
    if a == "" {
      assert a + y == y;
    } else {
      assert (a + y)[1..] == a[1..] + y;
      WeightOfPrefix(mark, a[1..], y);
    }
  }

  lemma {:induction false} WeightOfStarred(mark: char, a: string, y: string)
    requires '/' !in a && mark !in a
    ensures Weight(mark, a + y) == |a| + Weight(mark, y)
  {
    if a == "" {
      assert a + y == y;
    } else {
      assert (a + y)[1..] == a[1..] + y;
      assert (a + y)[0] == a[0];
      WeightOfStarred(mark, a[1..], y);
    }
  }

  /** A key that follows within `pre + y`, where `y` starts with a star, follows
      within any continuation of `pre`. */
  lemma KeyFollowsBeforeStar(pre: string, y: string, z: string)
    requires pre != "" && y != "" && y[0] == '*' && KeyFollows(pre + y)
    ensures KeyFollows(pre + z) && |pre| >= 9
  {
    if |pre| < 9 {
      StarInKey(pre, y);
    } else {
      assert (pre + y)[1..9] == pre[1..9] == (pre + z)[1..9];
    }
  }

  lemma StarInKey(pre: string, y: string)
    requires 0 < |pre| < 9 && |pre + y| >= 9 && y != "" && y[0] == '*'
    ensures !AllIn(KeyChar, (pre + y)[1..9])
  {
    assert (pre + y)[1..9][|pre| - 1] == (pre + y)[|pre|] == '*';
  }

  /** Replacing what follows `pre` by text starting with a star makes `pre` no
      heavier, and lighter by 6 if `pre` ends in the slash before a key. */
  lemma {:induction false} WeightBeforeStar(mark: char, pre: string, y: string, z: string)
    requires y != "" && y[0] == '*'
    ensures Weight(mark, pre + y) + Weight(mark, z) <= Weight(mark, pre + z) + Weight(mark, y)
    ensures pre != "" && pre[|pre| - 1] == '/' && |z| >= 8 && AllIn(KeyChar, z[..8]) ==>
              Weight(mark, pre + y) + Weight(mark, z) + 6 <= Weight(mark, pre + z) + Weight(mark, y)
  {
    if pre == "" {
      assert pre + y == y && pre + z == z;
    } else {
      assert (pre + y)[1..] == pre[1..] + y && (pre + z)[1..] == pre[1..] + z;
      WeightBeforeStar(mark, pre[1..], y, z);
      if KeyFollows(pre + y) {
        KeyFollowsBeforeStar(pre, y, z);
      }
      if |pre| == 1 {
        assert pre[1..] == "";
        if pre[0] == '/' && |z| >= 8 && AllIn(KeyChar, z[..8]) {
          assert (pre + z)[1..9] == z[..8];
        }
      } else {
        assert pre[1..][|pre| - 2] == pre[|pre| - 1];
      }
    }
  }

  lemma {:induction false} StarFreeRewrite(p: Pattern, s: string)
    requires '*' !in Rewrite(p, s)
    ensures Rewrite(p, s) == s
    decreases |s|
  {
    if s != "" {
      match MatchFront(p, s)
      case None =>
        assert Rewrite(p, s)[1..] == Rewrite(p, s[1..]);
        StarFreeRewrite(p, s[1..]);
      case Some(m) => PlaceholderAt(p, s, m);
    }
  }

  lemma KeyAfter(c: char, t: string)
    ensures KeyFollows([c] + t) <==> c == '/' && |t| >= 8 && AllIn(KeyChar, t[..8])
  {
    if |t| >= 8 {
      assert ([c] + t)[1..9] == t[..8];
    }
  }

  lemma KeyIsClear(v: string)
    requires AllIn(KeyChar, v)
    ensures Clear(v)
  {
    StarFreeIsClear(v);
  }

  /** Rewriting puts no new key at the front of a text. */
  lemma KeyIsOld(p: Pattern, s: string, rest: string)
    requires
      var t := Rewrite(p, s) + rest;
      |t| >= 8 && AllIn(KeyChar, t[..8])
    ensures |s + rest| >= 8 && AllIn(KeyChar, (s + rest)[..8])
  {
    var t := Rewrite(p, s);
    if |t| >= 8 {
      assert (t + rest)[..8] == t[..8];
      KeyIsClear(t[..8]);
      PrefixIsOld(p, s, t[..8]);
      assert (s + rest)[..8] == s[..8] == t[..8];
    } else {
      assert '*' !in t by {
        assert forall i :: 0 <= i < |t| ==> t[i] == (t + rest)[..8][i];
      }
      StarFreeRewrite(p, s);
    }
  }

  /** Rewriting what follows a slash puts no new key there. */
  lemma KeyFollowsIsOld(p: Pattern, c: char, s: string, rest: string)
    requires KeyFollows([c] + (Rewrite(p, s) + rest))
    ensures KeyFollows([c] + (s + rest))
  {
    KeyAfter(c, Rewrite(p, s) + rest);
    KeyIsOld(p, s, rest);
    KeyAfter(c, s + rest);
  }

  /** A rewriting pass makes no text heavier, whatever follows it. */
  lemma {:induction false} RewriteIsLighter(mark: char, p: Pattern, s: string, rest: string)
    requires mark !in PLACEHOLDER && (p.Literal? ==> Bulky(mark, p.word))
    ensures Weight(mark, Rewrite(p, s) + rest) <= Weight(mark, s + rest)
    decreases |s|
  {
    if s != "" {
      match MatchFront(p, s)
      case None =>
        RewriteIsLighter(mark, p, s[1..], rest);
        LighterAfterCopy(mark, p, s[0], s[1..], rest);
        HeadFirst(s, rest);
        Assoc([s[0]], Rewrite(p, s[1..]), rest);
      case Some(m) =>
        RewriteIsLighter(mark, p, s[m.end..], rest);
        LighterAfterMatch(mark, p, s, m, rest);
    }
  }

  lemma LighterAfterCopy(mark: char, p: Pattern, c: char, s: string, rest: string)
    requires Weight(mark, Rewrite(p, s) + rest) <= Weight(mark, s + rest)
    ensures Weight(mark, [c] + (Rewrite(p, s) + rest)) <= Weight(mark, [c] + (s + rest))
  {
    var x, y := Rewrite(p, s) + rest, s + rest;
    assert ([c] + x)[1..] == x && ([c] + y)[1..] == y;
    if KeyFollows([c] + x) {
      KeyFollowsIsOld(p, c, s, rest);
    }
  }

  lemma LighterAfterMatch(mark: char, p: Pattern, s: string, m: Span, rest: string)
    requires s != "" && MatchFront(p, s) == Some(m) && mark !in PLACEHOLDER && (p.Literal? ==> Bulky(mark, p.word))
    requires Weight(mark, Rewrite(p, s[m.end..]) + rest) <= Weight(mark, s[m.end..] + rest)
    ensures Weight(mark, Rewrite(p, s) + rest) <= Weight(mark, s + rest)
  {
    var pre, mid, after := s[..m.keep], s[m.keep..m.end], Rewrite(p, s[m.end..]);
    Regroup(pre, PLACEHOLDER, after, rest);
    CutInThree(s, m.keep, m.end, rest);
    assert Weight(mark, pre + (PLACEHOLDER + (after + rest))) <= Weight(mark, pre + (mid + (s[m.end..] + rest))) by {
      if p.Literal? {
        LiteralShape(p.word, s, m);
        LighterLiteral(mark, p.word, after + rest, s[m.end..] + rest);
        assert "" + (PLACEHOLDER + (after + rest)) == PLACEHOLDER + (after + rest);
        assert "" + (mid + (s[m.end..] + rest)) == mid + (s[m.end..] + rest);
      } else {
        TailShape(s, m);
        LighterKey(mark, pre, mid, after + rest, s[m.end..] + rest);
      }
    }
  }

  lemma LiteralShape(word: string, s: string, m: Span)
    requires MatchFront(Literal(word), s) == Some(m)
    ensures s[..m.keep] == "" && s[m.keep..m.end] == word
  {
  }

  lemma LighterLiteral(mark: char, word: string, y: string, y0: string)
    requires mark !in PLACEHOLDER && Bulky(mark, word) && Weight(mark, y) <= Weight(mark, y0)
    ensures Weight(mark, PLACEHOLDER + y) <= Weight(mark, word + y0)
  {
    WeightOfStarred(mark, PLACEHOLDER, y);
    WeightOfPrefix(mark, word, y0);
  }

  lemma LighterKey(mark: char, pre: string, key: string, y: string, y0: string)
    requires pre != "" && pre[|pre| - 1] == '/' && |key| >= 8 && AllIn(KeyChar, key[..8])
    requires mark !in PLACEHOLDER && Weight(mark, y) <= Weight(mark, y0)
    ensures Weight(mark, pre + (PLACEHOLDER + y)) <= Weight(mark, pre + (key + y0))
  {
    WeightOfStarred(mark, PLACEHOLDER, y);
    WeightOfPrefix(mark, key, y0);
    assert (key + y0)[..8] == key[..8];
    assert (PLACEHOLDER + y)[0] == '*';
    WeightBeforeStar(mark, pre, PLACEHOLDER + y, key + y0);
  }

  lemma TailShape(s: string, m: Span)
    requires MatchTail(s) == Some(m)
    ensures s[..m.keep][m.keep - 1] == '/'
    ensures AllIn(KeyChar, s[m.keep..m.end][..8])
  {
    var i, j, end := MatchIsParsed(s);
    assert s[m.keep..m.end] == s[j + 1..end];
  }

  lemma RedactLineIsLighter(url: string, s: string, rest: string)
    requires Settles(url)
    ensures Weight(Mark(url), RedactLine(url, s) + rest) <= Weight(Mark(url), s + rest)
  {
    var mark := Mark(url);
    var first := if Contains(s, url) then Rewrite(Literal(url), s) else s;
    RewriteIsLighter(mark, Literal(url), s, rest);
    RewriteIsLighter(mark, RtmpTail, first, rest);
  }

  // ---------------------------------------------------------------------
  // The buffer
  // ---------------------------------------------------------------------

  function Threshold(url: string): nat { MAX_LINE_LEN + |url| }

  /** A forced split: the part of the redacted window sent out, and the buffer
      left, with any redacted overflow put back in front. */
  function SplitOff(url: string, buf: string): string
    requires |buf| >= Threshold(url)
  {
    var redacted := RedactLine(url, buf[..Threshold(url)]);
    if |redacted| > MAX_LINE_LEN then redacted[..MAX_LINE_LEN] else redacted
  }

  function SplitRest(url: string, buf: string): string
    requires |buf| >= Threshold(url)
  {
    var redacted := RedactLine(url, buf[..Threshold(url)]);
    (if |redacted| > MAX_LINE_LEN then redacted[MAX_LINE_LEN..] else "") + buf[Threshold(url)..]
  }

  lemma WeightWithoutFront(mark: char, a: string, rest: string, n: nat)
    requires n <= |a|
    ensures Weight(mark, a[n..] + rest) + n <= Weight(mark, a + rest)
  {
    assert a[n..] + rest == (a + rest)[n..];
    WeightOfSuffix(mark, a + rest, n);
  }

  /** Every forced split makes the buffer lighter, though not always shorter. */
  lemma SplitIsLighter(url: string, buf: string)
    requires Settles(url) && |buf| >= Threshold(url)
    ensures Weight(Mark(url), SplitRest(url, buf)) < Weight(Mark(url), buf)
  {
    var window, rest := buf[..Threshold(url)], buf[Threshold(url)..];
    var redacted := RedactLine(url, window);
    assert buf == window + rest;
    assert Weight(Mark(url), redacted + rest) <= Weight(Mark(url), buf) by {
      RedactLineIsLighter(url, window, rest);
    }
    if |redacted| > MAX_LINE_LEN {
      WeightWithoutFront(Mark(url), redacted, rest, MAX_LINE_LEN);
    } else {
      assert "" + rest == rest;
      WeightOfSuffix(Mark(url), buf, Threshold(url));
    }
  }

  /** The loop of `feed`: the lines it sends out, and the buffer it leaves. The
      recursion ends for every worker URL, of any length. */
  function Drain(url: string, buf: string): Cut
    requires Settles(url)
    decreases Weight(Mark(url), buf)
  {
    match FindNewline(buf)
    case Some(n) =>
      WeightOfSuffix(Mark(url), buf, n + 1);
      var later := Drain(url, buf[n + 1..]);
      Cut([RedactLine(url, buf[..n])] + later.lines, later.rest)
    case None =>
      if |buf| < Threshold(url) then Cut([], buf)
      else
        SplitIsLighter(url, buf);
        var later := Drain(url, SplitRest(url, buf));
        Cut([SplitOff(url, buf)] + later.lines, later.rest)
  }

  /** A cut with some lines already taken in front. */
  function After(out: seq<string>, c: Cut): Cut { Cut(out + c.lines, c.rest) }

  lemma AfterOneMore(out: seq<string>, line: string, c: Cut)
    ensures After(out + [line], c) == After(out, After([line], c))
  {
    assert out + [line] + c.lines == out + ([line] + c.lines);
  }

  lemma DrainStep(url: string, buf: string, line: string, next: string)
    requires Settles(url)
    requires match FindNewline(buf)
             case Some(n) => line == RedactLine(url, buf[..n]) && next == buf[n + 1..]
             case None => |buf| >= Threshold(url) && line == SplitOff(url, buf) && next == SplitRest(url, buf)
    ensures Drain(url, buf) == After([line], Drain(url, next))
    ensures Weight(Mark(url), next) < Weight(Mark(url), buf)
  {
    match FindNewline(buf)
    case Some(n) => WeightOfSuffix(Mark(url), buf, n + 1);
    case None => SplitIsLighter(url, buf);
  }

  class Sink {
    const url: string
    var buf: string

    constructor (url: string)
      requires url != ""
      ensures this.url == url && buf == ""
    {
      this.url := url;
      buf := "";
    }

    /** Appends a chunk and returns the redacted lines it completes. */
    method Feed(data: string) returns (out: seq<string>)
      requires Settles(url)
      modifies this
      ensures Cut(out, buf) == Drain(url, old(buf) + data)
    {
      buf := buf + data;
      ghost var goal := Drain(url, buf);
      out := [];
      while true
        invariant goal == After(out, Drain(url, buf))
        decreases Weight(Mark(url), buf)
      {
        ghost var before, taken := buf, out;
        var line: string;
        var nl := FindNewline(buf);
        if nl.None? {
          if |buf| < MAX_LINE_LEN + |url| {
            break;
          }
          line, buf := ForceSplit();
        } else {
          line := RedactLine(url, buf[..nl.value]);
          buf := buf[nl.value + 1..];
        }
        out := out + [line];
        DrainStep(url, before, line, buf);
        AfterOneMore(taken, line, Drain(url, buf));
      }
      assert Drain(url, buf) == Cut([], buf);
    }

    /** Redacts a window wide enough to hold the whole URL, sends out its first
        MAX_LINE_LEN bytes and puts the rest back. */
    method ForceSplit() returns (line: string, left: string)
      requires |buf| >= Threshold(url)
      ensures line == SplitOff(url, buf) && left == SplitRest(url, buf)
    {
      var threshold := MAX_LINE_LEN + |url|;
      var redacted := RedactLine(url, buf[..threshold]);
      if |redacted| > MAX_LINE_LEN {
        line, left := redacted[..MAX_LINE_LEN], redacted[MAX_LINE_LEN..] + buf[threshold..];
      } else {
        line, left := redacted, "" + buf[threshold..];
      }
    }

    /** Sends out what is left at end of file. */
    method Flush() returns (out: seq<string>)
      modifies this
      ensures buf == "" && out == Flushed(url, old(buf))
    {
      if buf == "" {
        return [];
      }
      out := [RedactLine(url, buf)];
      buf := "";
    }
  }

  function Flushed(url: string, buf: string): seq<string> {
    if buf == "" then [] else [RedactLine(url, buf)]
  }

  // ---------------------------------------------------------------------
  // What every feed guarantees
  // ---------------------------------------------------------------------

  lemma SplitOffIsPrefix(url: string, buf: string)
    requires |buf| >= Threshold(url)
    ensures |SplitOff(url, buf)| <= MAX_LINE_LEN
    ensures SplitOff(url, buf) <= RedactLine(url, buf[..Threshold(url)])
  {
  }

  lemma PrefixContains(s: string, v: string, word: string)
    requires v <= s && Contains(v, word)
    ensures Contains(s, word)
  {
    var i :| 0 <= i <= |v| && word <= v[i..];
    assert word <= s[i..];
  }

  /** A line fit to be sent out. */
  ghost predicate Clean(url: string, line: string) {
    OneLine(line) && (WorkerUrl(url) && !CanSurvive(url) ==> !Contains(line, url))
  }

  lemma RedactedIsClean(url: string, line: string)
    requires Settles(url) && OneLine(line)
    ensures Clean(url, RedactLine(url, line))
  {
    RedactedLineIsOneLine(url, line);
    if WorkerUrl(url) && !CanSurvive(url) {
      RedactedLineHidesUrl(url, line);
    }
  }

  lemma SplitIsClean(url: string, buf: string)
    requires Settles(url) && OneLine(buf) && |buf| >= Threshold(url)
    ensures Clean(url, SplitOff(url, buf)) && |SplitOff(url, buf)| <= MAX_LINE_LEN && OneLine(SplitRest(url, buf))
  {
    var redacted := RedactLine(url, buf[..Threshold(url)]);
    RedactedIsClean(url, buf[..Threshold(url)]);
    SplitOffIsPrefix(url, buf);
    if Contains(SplitOff(url, buf), url) {
      PrefixContains(redacted, SplitOff(url, buf), url);
    }
  }

  /** Whatever was buffered and fed: what stays behind is one unfinished line
      shorter than the threshold, no line sent out holds a newline, and none
      holds the worker's URL if that cannot survive. */
  lemma {:induction false} DrainIsClean(url: string, buf: string)
    requires Settles(url)
    ensures
      var d := Drain(url, buf);
      && OneLine(d.rest) && |d.rest| < 4096 + |url|
      && forall i :: 0 <= i < |d.lines| ==> Clean(url, d.lines[i])
    decreases Weight(Mark(url), buf)
  {
    match FindNewline(buf)
    case Some(n) =>
      DrainStep(url, buf, RedactLine(url, buf[..n]), buf[n + 1..]);
      DrainIsClean(url, buf[n + 1..]);
      RedactedIsClean(url, buf[..n]);
    case None =>
      if |buf| >= Threshold(url) {
        DrainStep(url, buf, SplitOff(url, buf), SplitRest(url, buf));
        DrainIsClean(url, SplitRest(url, buf));
        SplitIsClean(url, buf);
      }
  }

  /** Without a newline only forced splits happen, if and only if the buffer holds
      the cap and the length of the URL, and those respect the cap. */
  lemma {:induction false} ForcedSplitsAreCapped(url: string, buf: string)
    requires Settles(url) && OneLine(buf)
    ensures Drain(url, buf).lines != [] <==> |buf| >= 4096 + |url|
    ensures forall i :: 0 <= i < |Drain(url, buf).lines| ==> |Drain(url, buf).lines[i]| <= 4096
    decreases Weight(Mark(url), buf)
  {
    if |buf| >= Threshold(url) {
      DrainStep(url, buf, SplitOff(url, buf), SplitRest(url, buf));
      SplitIsClean(url, buf);
      ForcedSplitsAreCapped(url, SplitRest(url, buf));
    }
  }

  // ---------------------------------------------------------------------
  // Chunking
  // ---------------------------------------------------------------------

  function RedactAll(url: string, lines: seq<string>): seq<string> {
    if lines == [] then [] else [RedactLine(url, lines[0])] + RedactAll(url, lines[1..])
  }

  lemma {:induction false} RedactAllConcat(url: string, a: seq<string>, b: seq<string>)
    ensures RedactAll(url, a + b) == RedactAll(url, a) + RedactAll(url, b)
  {
    if a == [] {
      assert a + b == b;
    } else {
      assert (a + b)[1..] == a[1..] + b;
      RedactAllConcat(url, a[1..], b);
    }
  }

  /** With no overlong stretch, draining is cutting into lines and redacting. */
  lemma {:induction false} DrainShortRuns(url: string, buf: string)
    requires Settles(url) && ShortRuns(buf, Threshold(url) - 1)
    ensures
      var cut := SplitLines(buf);
      Drain(url, buf) == Cut(RedactAll(url, cut.lines), cut.rest)
    decreases |buf|
  {
    match FindNewline(buf)
    case Some(n) =>
      ShortRunsWithin(buf, Threshold(url) - 1, n + 1, |buf|);
      assert buf[n + 1..|buf|] == buf[n + 1..];
      DrainShortRuns(url, buf[n + 1..]);
    case None =>
      assert buf[0..|buf|] == buf;
  }

  /** Feeding a list of chunks one after the other. */
  function FeedAll(url: string, buf: string, chunks: seq<string>): Cut
    requires Settles(url)
    decreases |chunks|
  {
    if chunks == [] then Cut([], buf)
    else
      var first := Drain(url, buf + chunks[0]);
      var later := FeedAll(url, first.rest, chunks[1..]);
      Cut(first.lines + later.lines, later.rest)
  }

  /** Everything a stream puts out, end of file included. */
  function Output(url: string, chunks: seq<string>): seq<string>
    requires Settles(url)
  {
    var all := FeedAll(url, "", chunks);
    all.lines + Flushed(url, all.rest)
  }

  lemma {:induction false} FeedAllShortRuns(url: string, buf: string, chunks: seq<string>)
    requires Settles(url) && OneLine(buf)
    requires ShortRuns(buf + Concat(chunks), Threshold(url) - 1)
    ensures
      var cut := SplitLines(buf + Concat(chunks));
      FeedAll(url, buf, chunks) == Cut(RedactAll(url, cut.lines), cut.rest)
    decreases |chunks|
  {
    if chunks == [] {
      assert buf + Concat(chunks) == buf;
    } else {
      var a, b, n := buf + chunks[0], Concat(chunks[1..]), Threshold(url) - 1;
      assert buf + Concat(chunks) == a + b;
      ShortRunsParts(a, b, n);
      DrainShortRuns(url, a);
      SplitIsExact(a);
      ShortRunsCarry(a, b, n);
      FeedAllShortRuns(url, SplitLines(a).rest, chunks[1..]);
      SplitConcat(a, b);
      RedactAllConcat(url, SplitLines(a).lines, SplitLines(SplitLines(a).rest + b).lines);
    }
  }

  /** For every stream whose newline-free stretches stay below the cap and the
      length of the URL,
      however it is cut into chunks, the sink puts out each line of the stream
      redacted, and at the end what follows the last newline, if anything. */
  lemma ChunkingDoesNotMatter(url: string, chunks: seq<string>)
    requires Settles(url) && ShortRuns(Concat(chunks), 4095 + |url|)
    ensures
      var cut := SplitLines(Concat(chunks));
      Output(url, chunks) ==
        RedactAll(url, cut.lines) + if cut.rest == "" then [] else [RedactLine(url, cut.rest)]
  {
    assert "" + Concat(chunks) == Concat(chunks);
    FeedAllShortRuns(url, "", chunks);
  }

  /** For every stream and every chunking at all, no single line put out holds a
      newline, nor the whole of the worker's URL if that cannot survive. */
  lemma {:induction false} LinesAreClean(url: string, buf: string, chunks: seq<string>)
    requires Settles(url) && OneLine(buf)
    ensures
      var all := FeedAll(url, buf, chunks);
      && OneLine(all.rest)
      && (forall i :: 0 <= i < |all.lines| ==> Clean(url, all.lines[i]))
      && (forall i :: 0 <= i < |Flushed(url, all.rest)| ==> Clean(url, Flushed(url, all.rest)[i]))
    decreases |chunks|
  {
    if chunks == [] {
      if buf != "" {
        RedactedIsClean(url, buf);
      }
    } else {
      DrainIsClean(url, buf + chunks[0]);
      LinesAreClean(url, Drain(url, buf + chunks[0]).rest, chunks[1..]);
    }
  }
}
