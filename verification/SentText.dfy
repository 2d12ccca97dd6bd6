/** All that a stream without a newline makes the sink of app/fanout/redaction.py
    send out, read as one text: forced splits cut it into lines, and the URL might
    stand across the cuts. */
module SentText {
  import opened Options
  import opened SeqFacts
  import opened Rewriting
  import opened Lines
  import opened RedactionSink
  import opened ScanEnd
  import opened StraddlingUrl

  // ---------------------------------------------------------------------
  // What stands at the ends of rewritten text was there before
  // ---------------------------------------------------------------------

  /** A clear prefix of the rewritten text and what follows it is a prefix of the
      original and what follows. */
  lemma {:induction false} PrefixIsOldBeyond(p: Pattern, s: string, rest: string, v: string)
    requires v <= Rewrite(p, s) + rest && Clear(v)
    ensures v <= s + rest
    decreases |s|
  {
    if s != "" && v != "" {
      match MatchFront(p, s)
      case None =>
        RewriteAtCopy(p, s);
        HeadFirst(Rewrite(p, s), rest);
        HeadFirst(s, rest);
        ClearTail(v);
        assert v[1..] <= Rewrite(p, s[1..]) + rest;
        PrefixIsOldBeyond(p, s[1..], rest, v[1..]);
        assert v == [v[0]] + v[1..];
      case Some(m) =>
        PlaceholderAt(p, s, m);
        var t := Rewrite(p, s) + rest;
        ConcatSlices(Rewrite(p, s), rest, m.keep);
        ClearStops(t, v, m.keep);
        assert v <= s[..m.keep];
    }
  }

  lemma ClearSuffix(v: string, k: nat)
    requires Clear(v) && k <= |v|
    ensures Clear(v[k..])
  {
    forall i | 0 <= i < |v[k..]| ensures !Agree(v[k..][i..], PLACEHOLDER) {
      assert v[k..][i..] == v[k + i..];
    }
  }

  /** The front of a clear URL at the end of the rewritten text ends the original,
      and no match reached into it. */
  lemma EndIsOld(p: Pattern, s: string, url: string, h: nat)
    requires 0 < h <= |url| && url[0] == 'r' && Clear(url) && EndsWith(Rewrite(p, s), url[..h])
    ensures EndsWith(s, url[..h]) && !ReachesEnd(p, s, h)
  {
    hide Rewrite;
    if ReachesEnd(p, s, h) {
      var k, front := LastCut(p, s, h);
      NoReachIntoFront(Rewrite(p, s), front, s[k..], url, h);
    } else if |s| < h {
      WholeIsSpared(p, s, h);
    } else {
      var end := s[|s| - h..];
      assert s == s[..|s| - h] + end;
      EndIsSpared(p, s[..|s| - h], end);
      EndsWithItself(Rewrite(p, s[..|s| - h]), end);
      BothEnds(Rewrite(p, s), end, url[..h]);
      assert url[..h] == end;
    }
  }

  /** A text with a placeholder less than `h` characters before its end does not
      end with the first `h` characters of a clear URL. */
  lemma NoReachIntoFront(out: string, front: string, rest: string, url: string, h: nat)
    requires out == front + (PLACEHOLDER + rest) && |rest| < h <= |url|
    requires url[0] == 'r' && Clear(url)
    ensures !EndsWith(out, url[..h])
  {
    EndsWithItself(front, PLACEHOLDER + rest);
    if EndsWith(out, url[..h]) {
      if h <= |PLACEHOLDER + rest| {
        NoHeadInPlaceholder(url[..h], rest);
        BothEnds(out, url[..h], PLACEHOLDER + rest);
      } else {
        BothEnds(out, PLACEHOLDER + rest, url[..h]);
        PlaceholderInside(url, h, rest);
      }
    }
  }

  lemma PlaceholderInside(url: string, h: nat, rest: string)
    requires h <= |url| && Clear(url)
    ensures !EndsWith(url[..h], PLACEHOLDER + rest)
  {
    if EndsWith(url[..h], PLACEHOLDER + rest) {
      PartInside(url, h, PLACEHOLDER, rest);
    }
  }

  lemma PartInside(url: string, h: nat, part: string, rest: string)
    requires h <= |url| && EndsWith(url[..h], part + rest)
    ensures |part + rest| <= h && part <= url[h - |part + rest|..]
  {
    var n := |part + rest|;
    assert url[h - n..][..|part|] == url[..h][h - n..][..|part|] == part;
  }

  // ---------------------------------------------------------------------
  // All that is sent
  // ---------------------------------------------------------------------

  /** What draining the buffer and flushing the rest send out, end to end. */
  function Sent(url: string, buf: string): string
    requires Settles(url)
  {
    Concat(Drain(url, buf).lines + Flushed(url, Drain(url, buf).rest))
  }

  lemma SentShort(url: string, buf: string)
    requires Settles(url) && OneLine(buf) && |buf| < Threshold(url)
    ensures Sent(url, buf) == RedactLine(url, buf)
  {
    assert Drain(url, buf) == Cut([], buf);
    assert [] + Flushed(url, buf) == Flushed(url, buf);
    if buf != "" {
      assert Concat([RedactLine(url, buf)]) == RedactLine(url, buf) + Concat([]);
    }
  }

  lemma SentLong(url: string, buf: string)
    requires Settles(url) && OneLine(buf) && |buf| >= Threshold(url)
    ensures Sent(url, buf) == SplitOff(url, buf) + Sent(url, SplitRest(url, buf))
    ensures Weight(Mark(url), SplitRest(url, buf)) < Weight(Mark(url), buf) && OneLine(SplitRest(url, buf))
  {
    hide SplitOff, SplitRest;
    DrainStep(url, buf, SplitOff(url, buf), SplitRest(url, buf));
    SplitIsClean(url, buf);
    var later := Drain(url, SplitRest(url, buf));
    Assoc([SplitOff(url, buf)], later.lines, Flushed(url, later.rest));
    assert ([SplitOff(url, buf)] + (later.lines + Flushed(url, later.rest)))[1..] == later.lines + Flushed(url, later.rest);
  }

  /** The line sent out and the buffer left are the redacted window and what
      followed it. */
  lemma SplitJoins(url: string, buf: string)
    requires |buf| >= Threshold(url)
    ensures SplitOff(url, buf) + SplitRest(url, buf) == RedactLine(url, buf[..Threshold(url)]) + buf[Threshold(url)..]
    ensures |SplitOff(url, buf)| <= MAX_LINE_LEN && SplitOff(url, buf) <= RedactLine(url, buf[..Threshold(url)])
  {
    hide RedactLine;
    var redacted, tail := RedactLine(url, buf[..Threshold(url)]), buf[Threshold(url)..];
    if |redacted| > MAX_LINE_LEN {
      assert redacted == redacted[..MAX_LINE_LEN] + redacted[MAX_LINE_LEN..];
      Assoc(redacted[..MAX_LINE_LEN], redacted[MAX_LINE_LEN..], tail);
    } else {
      assert "" + tail == tail;
    }
  }

  /** A clear prefix of the redacted window and what follows it is a prefix of the
      buffer. */
  lemma RedactedPrefixIsOld(url: string, window: string, tail: string, v: string)
    requires v <= RedactLine(url, window) + tail && Clear(v)
    ensures v <= window + tail
  {
    hide Rewrite;
    TwoPasses(url, window);
    PrefixIsOldBeyond(RtmpTail, Rewrite(Literal(url), window), tail, v);
    PrefixIsOldBeyond(Literal(url), window, tail, v);
  }

  /** Whatever clear text the sink's output begins with, the buffer begins with. */
  lemma {:induction false} SentPrefixIsOld(url: string, buf: string, v: string)
    requires Settles(url) && OneLine(buf) && v <= Sent(url, buf) && Clear(v)
    ensures v <= buf
    decreases Weight(Mark(url), buf)
  {
    hide RedactLine, SplitOff, SplitRest, Sent, Weight;
    if |buf| < Threshold(url) {
      SentShort(url, buf);
      assert RedactLine(url, buf) + "" == RedactLine(url, buf) && buf + "" == buf;
      RedactedPrefixIsOld(url, buf, "", v);
    } else {
      SentLong(url, buf);
      SplitJoins(url, buf);
      var line, rest := SplitOff(url, buf), SplitRest(url, buf);
      if |v| > |line| {
        ClearSuffix(v, |line|);
        assert v[|line|..] <= (line + Sent(url, rest))[|line|..] == Sent(url, rest);
        SentPrefixIsOld(url, rest, v[|line|..]);
        assert v == line + v[|line|..];
        PrefixUnder(line, v[|line|..], rest);
      } else {
        assert v <= line;
      }
      assert v <= line + rest;
      assert buf == buf[..Threshold(url)] + buf[Threshold(url)..];
      RedactedPrefixIsOld(url, buf[..Threshold(url)], buf[Threshold(url)..], v);
    }
  }

  // ---------------------------------------------------------------------
  // No split parts the URL
  // ---------------------------------------------------------------------

  /** A copy of the URL runs over the edge of the window with `h` characters
      inside. */
  predicate OverEdge(url: string, buf: string, h: nat) {
    0 < h < |url| && h <= Threshold(url) <= |buf| && url <= buf[Threshold(url) - h..]
  }

  /** A forced split of this buffer does not shrink the text before a URL over the
      edge too far, if that URL is spared at all. */
  ghost predicate WindowKeeps(url: string, buf: string) {
    forall h: nat :: OverEdge(url, buf, h) && Spared(url, buf[..Threshold(url) - h], url[..h]) ==>
      |RedactLine(url, buf[..Threshold(url) - h])| >= MAX_LINE_LEN
  }

  /** So for every split that draining the buffer makes. */
  ghost predicate NeverShrunk(url: string, buf: string)
    requires Settles(url)
    decreases Weight(Mark(url), buf)
  {
    |buf| >= Threshold(url) ==>
      WindowKeeps(url, buf) &&
      (SplitIsLighter(url, buf);
       NeverShrunk(url, SplitRest(url, buf)))
  }

  lemma FoundInWindow(url: string, buf: string, p: nat)
    requires |buf| >= Threshold(url)
    requires p < |SplitOff(url, buf)| && url <= (SplitOff(url, buf) + SplitRest(url, buf))[p..]
    ensures
      var redacted := RedactLine(url, buf[..Threshold(url)]);
      p < MAX_LINE_LEN && p < |redacted| && url <= redacted[p..] + buf[Threshold(url)..]
  {
    hide RedactLine, SplitOff, SplitRest;
    SplitJoins(url, buf);
    ConcatSlices(RedactLine(url, buf[..Threshold(url)]), buf[Threshold(url)..], p);
  }

  /** The URL found across the cut of a forced split stood over the edge of the
      window, was spared, and had too little text before it. */
  lemma FoundAcrossCut(url: string, buf: string, p: nat)
    requires WorkerUrl(url) && Clear(url) && |buf| >= Threshold(url)
    requires p < |SplitOff(url, buf)| && url <= (SplitOff(url, buf) + SplitRest(url, buf))[p..]
    ensures !WindowKeeps(url, buf)
  {
    hide RedactLine, SplitOff, SplitRest, Spared, Clear, EndsWith, WorkerUrl;
    var window, tail := buf[..Threshold(url)], buf[Threshold(url)..];
    FoundInWindow(url, buf, p);
    var h := |RedactLine(url, window)| - p;
    NotWithin(url, window, p);
    FrontAtEnd(url, RedactLine(url, window), tail, p);
    FrontIsOld(url, window, h);
    PartedHere(url, buf, h);
  }

  lemma PartedHere(url: string, buf: string, h: nat)
    requires |buf| >= Threshold(url) && 0 < h < |url| && url <= url[..h] + buf[Threshold(url)..]
    requires
      var window := buf[..Threshold(url)];
      h <= |window| && window[|window| - h..] == url[..h] && Spared(url, window[..|window| - h], url[..h])
    ensures OverEdge(url, buf, h) && Spared(url, buf[..Threshold(url) - h], url[..h])
    ensures |RedactLine(url, buf[..Threshold(url)])| == |RedactLine(url, buf[..Threshold(url) - h])| + h
  {
    hide RedactLine, Spared;
    var t := Threshold(url);
    assert buf[..t][..t - h] == buf[..t - h] && buf[..t][t - h..] == url[..h];
    assert buf[..t] == buf[..t - h] + url[..h];
    assert buf[t - h..] == url[..h] + buf[t..];
    SparedWindow(url, buf[..t - h], url[..h]);
  }

  lemma NotWithin(url: string, window: string, p: nat)
    requires WorkerUrl(url) && Clear(url) && p <= |RedactLine(url, window)|
    ensures !(url <= RedactLine(url, window)[p..])
  {
    RedactedLineHidesUrl(url, window);
  }

  /** Where the URL stands over the end of a text: its front ends the text, and
      the rest of it begins what follows. */
  lemma FrontAtEnd(url: string, s: string, tail: string, p: nat)
    requires p < |s| && url <= s[p..] + tail && !(url <= s[p..])
    ensures
      var h := |s| - p;
      0 < h < |url| && EndsWith(s, url[..h]) && url <= url[..h] + tail
  {
    var h := |s| - p;
    assert h < |url|;
    assert url[..h] == (s[p..] + tail)[..h] == s[p..];
  }

  lemma FrontIsOld(url: string, window: string, h: nat)
    requires WorkerUrl(url) && Clear(url) && 0 < h < |url| && |window| == Threshold(url)
    requires EndsWith(RedactLine(url, window), url[..h])
    ensures h <= |window| && window[|window| - h..] == url[..h]
    ensures Spared(url, window[..|window| - h], url[..h])
  {
    hide Rewrite, ReachesEnd;
    TwoPasses(url, window);
    EndIsOld(RtmpTail, Rewrite(Literal(url), window), url, h);
    EndIsOld(Literal(url), window, url, h);
    assert window == window[..|window| - h] + url[..h];
  }

  /** If no split shrinks the text before a URL over its edge, the whole output
      does not hold the URL, within a line or across any number of them. */
  lemma {:induction false} SentHidesUrl(url: string, buf: string)
    requires WorkerUrl(url) && Clear(url) && OneLine(buf) && NeverShrunk(url, buf)
    ensures !Contains(Sent(url, buf), url)
    decreases Weight(Mark(url), buf)
  {
    hide RedactLine, SplitOff, SplitRest, Sent, Weight, WindowKeeps;
    if |buf| < Threshold(url) {
      SentShort(url, buf);
      RedactedLineHidesUrl(url, buf);
    } else {
      SentLong(url, buf);
      var line, rest := SplitOff(url, buf), SplitRest(url, buf);
      SentHidesUrl(url, rest);
      if Contains(Sent(url, buf), url) {
        var p :| 0 <= p <= |Sent(url, buf)| && url <= Sent(url, buf)[p..];
        if p < |line| {
          AcrossCut(url, line, Sent(url, rest), rest, p, buf);
          FoundAcrossCut(url, buf, p);
        } else {
          FoundLater(url, line, Sent(url, rest), p);
        }
      }
    }
  }

  lemma FoundLater(url: string, line: string, later: string, p: nat)
    requires |line| <= p <= |line + later| && url <= (line + later)[p..]
    ensures Contains(later, url)
  {
    assert (line + later)[p..] == later[p - |line|..];
  }

  /** A URL that begins in the line and goes on in what is sent afterwards goes on
      in the buffer left as well. */
  lemma AcrossCut(url: string, line: string, later: string, rest: string, p: nat, buf: string)
    requires Settles(url) && Clear(url) && OneLine(rest) && later == Sent(url, rest)
    requires p < |line| && url <= (line + later)[p..]
    ensures url <= (line + rest)[p..]
  {
    hide Sent;
    ConcatSlices(line, later, p);
    ConcatSlices(line, rest, p);
    var m := |line| - p;
    if |url| > m {
      ClearSuffix(url, m);
      assert url[m..] <= (line[p..] + later)[m..] == later;
      SentPrefixIsOld(url, rest, url[m..]);
      assert url[..m] == (line[p..] + later)[..m] == line[p..];
      assert url == line[p..] + url[m..];
      PrefixUnder(line[p..], url[m..], rest);
    } else {
      assert url <= line[p..];
    }
  }

  // ---------------------------------------------------------------------
  // Chunk by chunk
  // ---------------------------------------------------------------------

  /** Without a newline, it does not matter what is fed when. */
  lemma {:induction false} DrainOfConcat(url: string, a: string, b: string)
    requires Settles(url) && OneLine(a + b)
    ensures Drain(url, a + b) == After(Drain(url, a).lines, Drain(url, Drain(url, a).rest + b))
    decreases Weight(Mark(url), a)
  {
    hide SplitOff, SplitRest, Weight;
    PartsAreOneLine(a, b);
    if |a| < Threshold(url) {
      assert Drain(url, a) == Cut([], a);
      AfterNothing(Drain(url, a + b));
    } else {
      SplitOfConcat(url, a, b);
      DrainStep(url, a, SplitOff(url, a), SplitRest(url, a));
      DrainStep(url, a + b, SplitOff(url, a), SplitRest(url, a) + b);
      SplitIsClean(url, a);
      DrainOfConcat(url, SplitRest(url, a), b);
      var later := Drain(url, SplitRest(url, a));
      Assoc([SplitOff(url, a)], later.lines, Drain(url, later.rest + b).lines);
    }
  }

  lemma AfterNothing(c: Cut)
    ensures After([], c) == c
  {
  }

  lemma PartsAreOneLine(a: string, b: string)
    requires OneLine(a + b)
    ensures OneLine(a) && OneLine(b)
  {
    assert forall i :: 0 <= i < |a| ==> a[i] == (a + b)[i];
    assert forall i :: 0 <= i < |b| ==> b[i] == (a + b)[|a| + i];
  }

  lemma SplitOfConcat(url: string, a: string, b: string)
    requires |a| >= Threshold(url)
    ensures SplitOff(url, a + b) == SplitOff(url, a) && SplitRest(url, a + b) == SplitRest(url, a) + b
  {
    hide RedactLine;
    ConcatSlices(a, b, Threshold(url));
    var redacted := RedactLine(url, a[..Threshold(url)]);
    Assoc(if |redacted| > MAX_LINE_LEN then redacted[MAX_LINE_LEN..] else "", a[Threshold(url)..], b);
  }

  lemma {:induction false} FeedAllIsDrain(url: string, buf: string, chunks: seq<string>)
    requires Settles(url) && OneLine(buf + Concat(chunks)) && |buf| < Threshold(url)
    ensures FeedAll(url, buf, chunks) == Drain(url, buf + Concat(chunks))
    decreases |chunks|
  {
    hide SplitOff, SplitRest, Weight;
    if chunks == [] {
      assert buf + Concat(chunks) == buf;
    } else {
      var a, b := buf + chunks[0], Concat(chunks[1..]);
      Assoc(buf, chunks[0], b);
      PartsAreOneLine(a, b);
      DrainIsClean(url, a);
      DrainOfConcat(url, a, b);
      RestStaysOneLine(url, a, b);
      FeedAllIsDrain(url, Drain(url, a).rest, chunks[1..]);
    }
  }

  lemma RestStaysOneLine(url: string, a: string, b: string)
    requires Settles(url) && OneLine(a + b)
    ensures OneLine(Drain(url, a).rest + b)
  {
    hide Drain;
    PartsAreOneLine(a, b);
    DrainIsClean(url, a);
  }

  /** For every stream without a newline and every chunking: all that is sent,
      end of file included and read end to end, does not hold the worker's URL,
      unless some forced split has shrunk the text before a URL over its edge. */
  lemma StreamHidesUrl(url: string, chunks: seq<string>)
    requires WorkerUrl(url) && Clear(url) && OneLine(Concat(chunks)) && NeverShrunk(url, Concat(chunks))
    ensures !Contains(Concat(Output(url, chunks)), url)
  {
    hide Drain, NeverShrunk, FeedAll;
    assert "" + Concat(chunks) == Concat(chunks);
    FeedAllIsDrain(url, "", chunks);
    SentHidesUrl(url, Concat(chunks));
  }
}
