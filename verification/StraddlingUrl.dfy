/** A worker URL that runs over the edge of the window of a forced split, which
    app/fanout/redaction.py promises never to part. */
module StraddlingUrl {
  import opened Options
  import opened SeqFacts
  import opened Rewriting
  import opened TailPass
  import opened Lines
  import opened RedactionSink
  import opened ScanEnd

  // ---------------------------------------------------------------------
  // An end that is reached is lost
  // ---------------------------------------------------------------------

  lemma CharBeforeRest(front: string, rest: string)
    ensures
      var s := front + (PLACEHOLDER + rest);
      s[|s| - |rest| - 1] == '*'
  {
    assert PLACEHOLDER[13] == '*';
  }

  lemma KeyAtEnd(s: string)
    requires EndsInMatch(RtmpTail, s)
    ensures s != "" && In(KeyChar, s[|s| - 1])
  {
    var j :| 0 <= j && j + 9 <= |s| && s[j] == '/' && AllIn(KeyChar, s[j + 1..]);
    assert In(KeyChar, s[j + 1..][|s| - j - 2]) && s[j + 1..][|s| - j - 2] == s[|s| - 1];
  }

  /** A tail match that ends within the end of a text costs it that end: the
      last character of the key gives way to a star. */
  lemma CutInEnd(s: string, end: string, k: nat, front: string)
    requires EndsWith(s, end) && LastCutAt(RtmpTail, s, k, front) && |s| < k + |end|
    ensures !EndsWith(Rewrite(RtmpTail, s), end)
  {
    KeyAtEnd(s[..k]);
    CharBeforeRest(front, s[k..]);
    CharOfEnd(s, end, |s| - k);
    CharOfEnd(Rewrite(RtmpTail, s), end, |s| - k);
  }

  lemma TailReachIsLost(s: string, end: string)
    requires EndsWith(s, end) && ReachesEnd(RtmpTail, s, |end|)
    ensures !EndsWith(Rewrite(RtmpTail, s), end)
  {
    var k, front := LastCut(RtmpTail, s, |end|);
    CutInEnd(s, end, k, front);
  }

  lemma SlashThenStar(s: string, x: nat, j: nat)
    requires x < |s| && s[x] == '*' && '/' !in s[x..] && j < |s| && s[j] == '/'
    ensures !AllIn(KeyChar, s[j + 1..])
  {
    forall y | x <= y < |s| ensures s[y] != '/' {
      assert s[x..][y - x] == s[y];
    }
    assert s[j + 1..][x - j - 1] == '*';
  }

  /** No match ends within a placeholder. */
  lemma NoMatchEndsInPlaceholder(front: string, o: nat)
    requires 0 < o <= |PLACEHOLDER|
    ensures !EndsInMatch(RtmpTail, front + PLACEHOLDER[..o])
  {
    var s := front + PLACEHOLDER[..o];
    assert s[|front|..] == PLACEHOLDER[..o];
    assert '/' !in PLACEHOLDER[..o];
    if EndsInMatch(RtmpTail, s) {
      var j :| 0 <= j && j + 9 <= |s| && s[j] == '/' && AllIn(KeyChar, s[j + 1..]);
      SlashThenStar(s, |front|, j);
    }
  }

  /** A tail match that ends within a placeholder or behind it costs the text
      what follows the placeholder. */
  lemma ReachIsBehindPlaceholder(front: string, rest: string)
    requires ReachesEnd(RtmpTail, front + (PLACEHOLDER + rest), |PLACEHOLDER + rest|)
    ensures !EndsWith(Rewrite(RtmpTail, front + (PLACEHOLDER + rest)), rest)
  {
    var s := front + (PLACEHOLDER + rest);
    var k, z := LastCut(RtmpTail, s, |PLACEHOLDER + rest|);
    assert k > |front| + 14 by {
      if k <= |front| + 14 {
        assert s[..k] == front + PLACEHOLDER[..k - |front|];
        NoMatchEndsInPlaceholder(front, k - |front|);
      }
    }
    Assoc(front, PLACEHOLDER, rest);
    EndsWithItself(front + PLACEHOLDER, rest);
    CutInEnd(s, rest, k, z);
  }

  /** What the tail pass makes of a placeholder in front of `rest`, if it does
      not lose `rest`: nothing. */
  lemma PlaceholderStays(front: string, rest: string)
    requires EndsWith(Rewrite(RtmpTail, front + (PLACEHOLDER + rest)), rest)
    ensures EndsWith(Rewrite(RtmpTail, front + (PLACEHOLDER + rest)), PLACEHOLDER + rest)
  {
    if ReachesEnd(RtmpTail, front + (PLACEHOLDER + rest), |PLACEHOLDER + rest|) {
      ReachIsBehindPlaceholder(front, rest);
    } else {
      EndIsSpared(RtmpTail, front, PLACEHOLDER + rest);
      EndsWithItself(Rewrite(RtmpTail, front), PLACEHOLDER + rest);
    }
  }

  lemma NoHeadInPlaceholder(head: string, rest: string)
    requires |rest| < |head| && head[0] == 'r'
    ensures !EndsWith(PLACEHOLDER + rest, head)
  {
    var n := |head| - |rest|;
    CharOfEnd(PLACEHOLDER + rest, head, |head| - 1);
    assert n <= 14 ==> (PLACEHOLDER + rest)[14 - n] == PLACEHOLDER[14 - n] != 'r';
  }

  /** If `s` ends with a URL and `s + rest` with a part of it that ends with a
      placeholder and `rest`, then the URL ends with a placeholder. */
  lemma UrlEndsWithPlaceholder(url: string, s: string, head: string, rest: string)
    requires |head| <= |url| && EndsWith(s, url) && EndsWith(s + rest, head) && EndsWith(head, PLACEHOLDER + rest)
    ensures EndsWith(url, PLACEHOLDER)
  {
    EndsWithItself(s, rest);
    BothEnds(s + rest, PLACEHOLDER + rest, head);
    TailOfEnd(s + rest, head, |PLACEHOLDER + rest|);
    assert s[|s| - 14..] == (s + rest)[|s| - 14..][..14] == PLACEHOLDER;
    BothEnds(s, PLACEHOLDER, url);
  }

  /** The window of a forced split, up to the URL's part `head` at its end, is
      redacted without touching `head`. */
  predicate Spared(url: string, pre: string, head: string) {
    && !ReachesEnd(Literal(url), pre + head, |head|)
    && !ReachesEnd(RtmpTail, Rewrite(Literal(url), pre + head), |head|)
  }

  lemma SparedWindow(url: string, pre: string, head: string)
    requires Spared(url, pre, head)
    ensures RedactLine(url, pre + head) == RedactLine(url, pre) + head
  {
    TwoPasses(url, pre + head);
    TwoPasses(url, pre);
    EndIsSpared(Literal(url), pre, head);
    EndIsSpared(RtmpTail, Rewrite(Literal(url), pre), head);
  }

  /** A literal match that ends within the part at the end of the window. */
  lemma LiteralCut(url: string, pre: string, head: string) returns (s: string, rest: string, front: string)
    requires ReachesEnd(Literal(url), pre + head, |head|)
    ensures pre + head == s + rest && |rest| < |head| && EndsWith(s, url)
    ensures Rewrite(Literal(url), pre + head) == front + (PLACEHOLDER + rest)
  {
    hide ReachesEnd, Rewrite;
    var k;
    k, front := LastCut(Literal(url), pre + head, |head|);
    s, rest := (pre + head)[..k], (pre + head)[k..];
  }

  /** A literal match that reaches into the part at the end loses it, unless the
      URL itself ends with a placeholder. */
  lemma LiteralReachIsLost(url: string, pre: string, head: string)
    requires head != "" && head[0] == 'r' && |head| <= |url| && !EndsWith(url, PLACEHOLDER)
    requires ReachesEnd(Literal(url), pre + head, |head|)
    ensures !EndsWith(RedactLine(url, pre + head), head)
  {
    hide Rewrite, ReachesEnd, RedactLine;
    TwoPasses(url, pre + head);
    var s, rest, front := LiteralCut(url, pre, head);
    var out := Rewrite(RtmpTail, front + (PLACEHOLDER + rest));
    if EndsWith(out, head) {
      EndsWithItself(pre, head);
      EndsWithItself(s, rest);
      BothEnds(pre + head, rest, head);
      TailOfEnd(out, head, |rest|);
      PlaceholderStays(front, rest);
      LostBehindPlaceholder(url, s, head, rest, out);
    }
  }

  lemma LostBehindPlaceholder(url: string, s: string, head: string, rest: string, out: string)
    requires |rest| < |head| <= |url| && head[0] == 'r' && !EndsWith(url, PLACEHOLDER)
    requires EndsWith(s, url) && EndsWith(s + rest, head) && EndsWith(out, PLACEHOLDER + rest)
    ensures !EndsWith(out, head)
  {
    if EndsWith(out, head) {
      if |head| <= |PLACEHOLDER + rest| {
        NoHeadInPlaceholder(head, rest);
        BothEnds(out, head, PLACEHOLDER + rest);
      } else {
        BothEnds(out, PLACEHOLDER + rest, head);
        UrlEndsWithPlaceholder(url, s, head, rest);
      }
    }
  }

  /** A literal match reaches into `head`, and so overlaps the URL that `head`
      begins, and what takes its place may end as `head` does: the URL itself ends
      with a placeholder. */
  predicate MayReappear(url: string, pre: string, head: string) {
    EndsWith(url, PLACEHOLDER) && ReachesEnd(Literal(url), pre + head, |head|)
  }

  /** A part of the URL that the redacted window still ends with was spared, or
      may have reappeared. */
  lemma SparedIfKept(url: string, pre: string, head: string)
    requires head != "" && head[0] == 'r' && |head| <= |url| && !MayReappear(url, pre, head)
    requires EndsWith(RedactLine(url, pre + head), head)
    ensures Spared(url, pre, head)
  {
    hide Rewrite, ReachesEnd, RedactLine;
    TwoPasses(url, pre + head);
    if ReachesEnd(Literal(url), pre + head, |head|) {
      LiteralReachIsLost(url, pre, head);
    } else {
      EndIsSpared(Literal(url), pre, head);
      EndsWithItself(Rewrite(Literal(url), pre), head);
      if ReachesEnd(RtmpTail, Rewrite(Literal(url), pre + head), |head|) {
        TailReachIsLost(Rewrite(Literal(url), pre + head), head);
      }
    }
  }

  // ---------------------------------------------------------------------
  // When the URL stays whole
  // ---------------------------------------------------------------------

  /** The redacted window beyond the line sent out. */
  function Kept(redacted: string): string {
    if |redacted| > MAX_LINE_LEN then redacted[MAX_LINE_LEN..] else ""
  }

  /** The forced split leaves the whole URL, and what follows it, in the buffer. */
  predicate StaysWhole(url: string, pre: string, post: string)
    requires |pre + url + post| >= Threshold(url)
  {
    EndsWith(SplitRest(url, pre + url + post), url + post)
  }

  lemma SplitAtEdge(url: string, pre: string, head: string, last: string, post: string)
    requires url == head + last && |pre| + |head| == Threshold(url)
    ensures
      var buf := pre + url + post;
      && |buf| >= Threshold(url) && buf[..Threshold(url)] == pre + head
      && SplitRest(url, buf) == Kept(RedactLine(url, pre + head)) + (last + post)
  {
    var buf := pre + url + post;
    assert buf == (pre + head) + (last + post);
    assert buf[..Threshold(url)] == pre + head && buf[Threshold(url)..] == last + post;
  }

  lemma EndsWithCancel(a: string, head: string, rest: string)
    ensures EndsWith(a + rest, head + rest) <==> EndsWith(a, head)
  {
    if |head| <= |a| {
      var k := |a| - |head|;
      assert (a + rest)[k..] == a[k..] + rest;
      assert (a[k..] + rest)[..|head|] == a[k..] && (head + rest)[..|head|] == head;
    }
  }

  lemma KeptEndsWith(redacted: string, head: string)
    requires head != ""
    ensures EndsWith(Kept(redacted), head) <==>
            EndsWith(redacted, head) && |redacted| >= MAX_LINE_LEN + |head|
  {
    var kept := Kept(redacted);
    if |redacted| >= MAX_LINE_LEN + |head| {
      assert kept[|kept| - |head|..] == redacted[|redacted| - |head|..];
    }
  }

  /** A forced split promises never to part a URL. For a URL that runs over the
      edge of the window, with a part `head` inside, it keeps that promise if and
      only if no match replaced in the window reaches into `head` and the text
      before it is still as long as the line sent out once it is redacted. (The
      one proviso is for a URL that overlaps itself and ends with a placeholder,
      whose part may reappear by being replaced.) What follows `head` is kept in
      any case. */
  lemma StraddlingUrlStaysWhole(url: string, pre: string, head: string, last: string, post: string)
    requires WorkerUrl(url) && url == head + last && head != "" && |pre| + |head| == Threshold(url)
    ensures |pre + url + post| >= Threshold(url)
    ensures Spared(url, pre, head) && |RedactLine(url, pre)| >= MAX_LINE_LEN ==> StaysWhole(url, pre, post)
    ensures StaysWhole(url, pre, post) && !MayReappear(url, pre, head) ==>
              Spared(url, pre, head) && |RedactLine(url, pre)| >= MAX_LINE_LEN
    ensures EndsWith(SplitRest(url, pre + url + post), last + post)
  {
    hide Rewrite, ReachesEnd, RedactLine, SplitRest;
    var redacted := RedactLine(url, pre + head);
    SplitAtEdge(url, pre, head, last, post);
    EndsWithItself(Kept(redacted), last + post);
    Assoc(head, last, post);
    EndsWithCancel(Kept(redacted), head, last + post);
    KeptEndsWith(redacted, head);
    assert head[0] == url[0] == 'r';
    if Spared(url, pre, head) {
      SparedWindow(url, pre, head);
      EndsWithItself(RedactLine(url, pre), head);
    } else if !MayReappear(url, pre, head) && EndsWith(redacted, head) {
      SparedIfKept(url, pre, head);
    }
  }

  // ---------------------------------------------------------------------
  // What a parted URL gives away
  // ---------------------------------------------------------------------

  /** How much of `head` goes out behind the redacted text before it. */
  function SentOf(url: string, pre: string, head: string): (n: nat)
    requires |RedactLine(url, pre)| < MAX_LINE_LEN
    ensures n <= |head| && (head != "" ==> 0 < n)
  {
    var room := MAX_LINE_LEN - |RedactLine(url, pre)|;
    if |head| <= room then |head| else room
  }

  lemma SentAndKept(front: string, head: string, n: nat)
    requires |front| < MAX_LINE_LEN
    requires n == if |head| <= MAX_LINE_LEN - |front| then |head| else MAX_LINE_LEN - |front|
    ensures
      var s := front + head;
      (if |s| > MAX_LINE_LEN then s[..MAX_LINE_LEN] else s) == front + head[..n] && Kept(s) == head[n..]
  {
  }

  lemma PartOf(url: string, head: string, last: string, n: nat, post: string)
    requires url == head + last && n <= |head|
    ensures url[..n] == head[..n] && url[n..] + post == head[n..] + (last + post)
  {
    ConcatSlices(head, last, n);
    Assoc(head[n..], last, post);
  }

  /** Where redaction has shrunk the window too far, the URL is parted: its front
      ends the line sent out, and the rest of it begins the buffer. */
  lemma ShrunkWindowPartsUrl(url: string, pre: string, head: string, last: string, post: string)
    requires WorkerUrl(url) && url == head + last && |pre| + |head| == Threshold(url)
    requires Spared(url, pre, head) && |RedactLine(url, pre)| < MAX_LINE_LEN
    ensures
      var buf, n := pre + url + post, SentOf(url, pre, head);
      && |buf| >= Threshold(url) && n <= |url|
      && SplitOff(url, buf) == RedactLine(url, pre) + url[..n]
      && SplitRest(url, buf) == url[n..] + post
  {
    hide Rewrite, ReachesEnd, RedactLine, SplitRest;
    SplitAtEdge(url, pre, head, last, post);
    SparedWindow(url, pre, head);
    SentAndKept(RedactLine(url, pre), head, SentOf(url, pre, head));
    PartOf(url, head, last, SentOf(url, pre, head), post);
  }

  /** Text without a colon holds no scheme, and text shorter than the URL does
      not hold the URL. */
  lemma ColonFreeIsKept(url: string, s: string)
    requires |s| < |url| && ':' !in s
    ensures RedactLine(url, s) == s
  {
    forall i | 0 <= i < |s| ensures MatchFront(RtmpTail, s[i..]).None? {
      assert forall x :: 0 <= x < |s[i..]| ==> s[i..][x] == s[i + x] != ':';
    }
    RewriteUnmatched(RtmpTail, s);
    ShorterIsKept(s, url);
    TwoPasses(url, s);
  }

  lemma PartIsOneLine(pre: string, url: string, n: nat)
    requires OneLine(pre + url) && n <= |url|
    ensures OneLine(url[n..])
  {
    assert forall i :: 0 <= i < |url[n..]| ==> url[n..][i] == (pre + url)[|pre| + n + i];
  }

  /** The rest of a parted URL then goes out as it is, if no colon is left in it:
      the URL leaves the sink in clear, over two lines. */
  lemma PartedUrlIsSent(url: string, pre: string, head: string, last: string)
    requires WorkerUrl(url) && url == head + last && head != "" && last != "" && |pre| + |head| == Threshold(url)
    requires Spared(url, pre, head) && |RedactLine(url, pre)| < MAX_LINE_LEN
    requires OneLine(pre + url) && ':' !in url[SentOf(url, pre, head)..]
    ensures
      var n := SentOf(url, pre, head);
      Output(url, [pre + url]) == [RedactLine(url, pre) + url[..n], url[n..]]
  {
    hide Rewrite, ReachesEnd, RedactLine, Spared, SplitOff, SplitRest, SentOf;
    var n, buf := SentOf(url, pre, head), pre + url;
    assert |buf| >= Threshold(url) && SplitOff(url, buf) == RedactLine(url, pre) + url[..n] && SplitRest(url, buf) == url[n..] by {
      ShrunkWindowPartsUrl(url, pre, head, last, "");
      assert pre + url + "" == buf && url[n..] + "" == url[n..];
    }
    PartIsOneLine(pre, url, n);
    SplitOnce(url, buf, url[n..]);
    ColonFreeIsKept(url, url[n..]);
    OneChunk(url, buf);
  }

  lemma SplitOnce(url: string, buf: string, rest: string)
    requires WorkerUrl(url) && OneLine(buf) && |buf| >= Threshold(url)
    requires SplitRest(url, buf) == rest && OneLine(rest) && |rest| < Threshold(url)
    ensures Drain(url, buf) == Cut([SplitOff(url, buf)], rest)
  {
    hide SplitOff, SplitRest;
    DrainStep(url, buf, SplitOff(url, buf), SplitRest(url, buf));
    assert Drain(url, rest) == Cut([], rest);
    assert [SplitOff(url, buf)] + [] == [SplitOff(url, buf)];
  }

  lemma OneChunk(url: string, chunk: string)
    requires WorkerUrl(url)
    ensures Output(url, [chunk]) == Drain(url, chunk).lines + Flushed(url, Drain(url, chunk).rest)
  {
    assert "" + chunk == chunk;
    var d := Drain(url, chunk);
    assert [chunk][1..] == [];
    assert FeedAll(url, d.rest, []) == Cut([], d.rest);
    assert d.lines + [] == d.lines;
  }

  function Filler(n: nat): string { seq(n, _ => 'x') }

  lemma FillerIsUnmatched(url: string, n: nat, head: string)
    requires WorkerUrl(url) && |head| < |url| && Unmatched(RtmpTail, head)
    ensures Unmatched(Literal(url), Filler(n) + head) && Unmatched(RtmpTail, PLACEHOLDER + (Filler(n) + head))
  {
    var s := Filler(n) + head;
    forall i | 0 <= i < |s| ensures MatchFront(Literal(url), s[i..]).None? {
      if i < n {
        assert s[i..][0] == 'x' != url[0];
      } else {
        assert s[i..] == head[i - n..];
      }
    }
    var t := PLACEHOLDER + s;
    forall i | 0 <= i < |t| ensures MatchFront(RtmpTail, t[i..]).None? {
      if i < 14 + n {
        assert t[i..][0] != 'r';
      } else {
        assert t[i..] == head[i - 14 - n..];
        assert MatchFront(RtmpTail, head[i - 14 - n..]).None?;
      }
    }
  }

  lemma FirstCopyIsRedacted(url: string, n: nat, head: string)
    requires WorkerUrl(url) && |head| < |url| && Unmatched(RtmpTail, head)
    ensures Rewrite(Literal(url), url + Filler(n) + head) == PLACEHOLDER + (Filler(n) + head)
    ensures RedactLine(url, url + Filler(n) + head) == PLACEHOLDER + (Filler(n) + head)
  {
    var s := Filler(n) + head;
    Assoc(url, Filler(n), head);
    FillerIsUnmatched(url, n, head);
    RewriteUnmatched(Literal(url), s);
    WordAtFront(url, s);
    RewriteUnmatched(RtmpTail, PLACEHOLDER + s);
    TwoPasses(url, url + s);
  }

  lemma SecondCopyIsSpared(url: string, n: nat, head: string)
    requires WorkerUrl(url) && |head| < |url| && Unmatched(RtmpTail, head)
    ensures Spared(url, url + Filler(n), head)
  {
    var s := Filler(n) + head;
    Assoc(url, Filler(n), head);
    assert (url + s)[|url|..] == s && MatchFront(Literal(url), url + s) == Some(Span(0, |url|));
    FillerIsUnmatched(url, n, head);
    UnmatchedIsSpared(Literal(url), s, |head|);
    FirstCopyIsRedacted(url, n, head);
    UnmatchedIsSpared(RtmpTail, PLACEHOLDER + s, |head|);
  }

  /** So it goes with a URL that stands twice in one overlong line, the second
      time over the edge by more than a placeholder's length: the first copy
      shrinks to a placeholder, and the second goes out in two parts. */
  lemma UrlTwiceInOneLine(url: string, head: string, last: string)
    requires WorkerUrl(url) && url == head + last && last != "" && OneLine(url)
    requires 14 < |head| <= MAX_LINE_LEN && Unmatched(RtmpTail, head) && ':' !in url[|head| - 14..]
    ensures
      var filler := Filler(MAX_LINE_LEN - |head|);
      Output(url, [url + filler + url]) == [PLACEHOLDER + filler + url[..|head| - 14], url[|head| - 14..]]
  {
    hide Rewrite, ReachesEnd, RedactLine, Spared, Drain, FeedAll;
    var filler := Filler(MAX_LINE_LEN - |head|);
    var pre := url + filler;
    SecondCopyIsSpared(url, |filler|, head);
    assert RedactLine(url, pre) == PLACEHOLDER + filler by {
      FirstCopyIsRedacted(url, |filler|, "");
      assert pre + "" == pre && filler + "" == filler;
    }
    assert OneLine(pre + url);
    PartedUrlIsSent(url, pre, head, last);
  }

  lemma MatchHasSlash(s: string) returns (j: nat)
    requires MatchTail(s).Some?
    ensures 10 <= j && j + 9 <= |s| && s[j] == '/'
  {
    var i, end;
    i, j, end := MatchIsParsed(s);
  }

  /** The server and application part of a URL: no slash that a match could have
      before its key is far enough from the end. */
  predicate KeylessPath(path: string) {
    forall j :: 10 <= j && j + 9 <= |path| ==> path[j] != '/'
  }

  lemma KeylessIsUnmatched(path: string)
    requires KeylessPath(path)
    ensures Unmatched(RtmpTail, path)
  {
    forall x | 0 <= x < |path| ensures MatchFront(RtmpTail, path[x..]).None? {
      if MatchTail(path[x..]).Some? {
        var j := MatchHasSlash(path[x..]);
      }
    }
  }

  /** For one, a key behind a path such as rtmp://live.twitch.tv/app/, whatever
      its characters: the second line out ends with the whole key. */
  lemma KeyBehindPathGoesOut(path: string, key: string)
    requires WorkerUrl(path) && KeylessPath(path) && OneLine(path) && 14 < |path| <= MAX_LINE_LEN
    requires key != "" && OneLine(key) && ':' !in path[|path| - 14..] + key
    ensures
      var url, filler, n := path + key, Filler(MAX_LINE_LEN - |path|), |path| - 14;
      Output(url, [url + filler + url]) == [PLACEHOLDER + filler + path[..n], path[n..] + key]
  {
    hide Output, Unmatched, KeylessPath;
    KeylessIsUnmatched(path);
    ConcatSlices(path, key, |path| - 14);
    assert (path + key)[..|path|] == path[..|path|] == path;
    SchemeIsLocal(path, path + key, |path|);
    UrlTwiceInOneLine(path + key, path, key);
  }
}
