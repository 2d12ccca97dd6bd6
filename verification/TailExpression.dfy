/** The RTMP tail expression of app/fanout/redaction.py with its characters
    written out, and what the pass makes of a text in these terms alone. */
module TailExpression {
  import opened Options
  import opened SeqFacts
  import opened Rewriting
  import opened TailPass
  import opened RedactionSink

  /** `[A-Za-z0-9_\-]`. */
  predicate IsKeyCharacter(c: char) {
    c in UPPER || c in LOWER || c in DIGITS || c == '_' || c == '-'
  }

  const UPPER := {
    'A', 'B', 'C', 'D', 'E', 'F', 'G', 'H', 'I', 'J', 'K', 'L', 'M',
    'N', 'O', 'P', 'Q', 'R', 'S', 'T', 'U', 'V', 'W', 'X', 'Y', 'Z'
  }

  const LOWER := {
    'a', 'b', 'c', 'd', 'e', 'f', 'g', 'h', 'i', 'j', 'k', 'l', 'm',
    'n', 'o', 'p', 'q', 'r', 's', 't', 'u', 'v', 'w', 'x', 'y', 'z'
  }

  const DIGITS := {'0', '1', '2', '3', '4', '5', '6', '7', '8', '9'}

  /** `\s` of a bytes pattern: space, tab, newline, vertical tab, form feed and
      carriage return. */
  const WHITESPACE := {' ', '\t', '\n', '\U{0b}', '\U{0c}', '\r'}

  /** A scheme, host, path and key, and what follows. */
  datatype Stretch = Stretch(scheme: string, host: string, path: string, key: string, rest: string)

  /** What precedes the key. */
  function Front(x: Stretch): string {
    x.scheme + x.host + "/" + x.path + "/"
  }

  function Text(x: Stretch): string {
    Front(x) + (x.key + x.rest)
  }

  ghost predicate IsSegment(s: string) {
    s != "" && forall k :: 0 <= k < |s| ==> s[k] != '/' && s[k] !in WHITESPACE
  }

  ghost predicate IsKey(s: string) {
    |s| >= 8 && forall k :: 0 <= k < |s| ==> IsKeyCharacter(s[k])
  }

  /** Two non-empty segments, and a key of eight characters or more that ends
      where the key characters do. */
  ghost predicate Proper(x: Stretch) {
    && (x.scheme == "rtmp://" || x.scheme == "rtmps://")
    && IsSegment(x.host) && IsSegment(x.path) && IsKey(x.key)
    && (x.rest != "" ==> !IsKeyCharacter(x.rest[0]))
  }

  // ---------------------------------------------------------------------
  // The matcher in these terms
  // ---------------------------------------------------------------------

  lemma UpperCase(c: char)
    ensures 'A' <= c <= 'Z' <==> c in UPPER
  {
    var code := c as int;
    assert c == code as char;
  }

  lemma LowerCase(c: char)
    ensures 'a' <= c <= 'z' <==> c in LOWER
  {
    var code := c as int;
    assert c == code as char;
  }

  lemma Digits(c: char)
    ensures '0' <= c <= '9' <==> c in DIGITS
  {
    var code := c as int;
    assert c == code as char;
  }

  lemma KeyCharacters(c: char)
    ensures In(KeyChar, c) <==> IsKeyCharacter(c)
  {
    UpperCase(c);
    LowerCase(c);
    Digits(c);
  }

  lemma SegmentCharacters(c: char)
    ensures In(Segment, c) <==> c != '/' && c !in WHITESPACE
  {
    var code := c as int;
    assert c == code as char;
  }

  lemma SegmentTexts(s: string)
    requires s != ""
    ensures AllIn(Segment, s) <==> IsSegment(s)
  {
    forall k | 0 <= k < |s| ensures In(Segment, s[k]) <==> s[k] != '/' && s[k] !in WHITESPACE {
      SegmentCharacters(s[k]);
    }
  }

  lemma KeyTexts(s: string)
    requires |s| >= 8
    ensures AllIn(KeyChar, s) <==> IsKey(s)
  {
    forall k | 0 <= k < |s| ensures In(KeyChar, s[k]) <==> IsKeyCharacter(s[k]) {
      KeyCharacters(s[k]);
    }
  }

  lemma SchemeTexts(s: string)
    ensures SchemeEnd(s) ==
            if "rtmp://" <= s then Some(7) else if "rtmps://" <= s then Some(8) else None
  {
    if |s| >= 7 {
      assert s[..7] == "rtmp://" <==> IsRtmp(s) && ColonSlashSlash(s, 4);
    }
    if |s| >= 8 {
      assert s[..8] == "rtmps://" <==> IsRtmp(s) && s[4] == 's' && ColonSlashSlash(s, 5);
    }
  }

  /** Where the parts of a stretch stand in its text. */
  lemma TextSlices(x: Stretch)
    ensures
      var s, h := Text(x), |x.scheme|;
      var i := h + |x.host|;
      var j := i + 1 + |x.path|;
      var end := j + 1 + |x.key|;
      && end <= |s| && |Front(x)| == j + 1
      && x.scheme == s[..h] && x.host == s[h..i] && s[i] == '/' && x.path == s[i + 1..j] && s[j] == '/'
      && x.key == s[j + 1..end] && x.rest == s[end..] && Front(x) == s[..j + 1]
  {
  }

  lemma ProperIsParsed(x: Stretch)
    requires Proper(x)
    ensures
      var i := |x.scheme| + |x.host|;
      var j := i + 1 + |x.path|;
      Parse(Text(x), i, j, j + 1 + |x.key|)
  {
    hide Text;
    TextSlices(x);
    SchemeTexts(Text(x));
    assert SchemeEnd(Text(x)) == Some(|x.scheme|) by {
      SchemeOf(x.scheme, Text(x));
    }
    SegmentTexts(x.host);
    SegmentTexts(x.path);
    KeyTexts(x.key);
  }

  lemma SchemeOf(scheme: string, s: string)
    requires (scheme == "rtmp://" || scheme == "rtmps://") && scheme <= s
    ensures SchemeEnd(s) == Some(|scheme|)
  {
    SchemeTexts(s);
    if scheme == "rtmps://" {
      assert s[4] == 's' && "rtmp://"[4] == ':';
    }
  }

  /** What a match takes for the key is key characters. */
  lemma TakenIsKey(s: string, k: nat)
    requires MatchTail(s).Some? && MatchTail(s).value.keep <= k < MatchTail(s).value.end
    ensures IsKeyCharacter(s[k])
  {
    hide MatchTail, SchemeEnd, In, IsKeyCharacter;
    var i, j, end := MatchIsParsed(s);
    assert s[k] == s[j + 1..end][k - j - 1];
    KeyCharacters(s[k]);
  }

  /** A stretch is matched, up to the end of its key. */
  lemma ProperIsMatched(x: Stretch)
    requires Proper(x)
    ensures MatchTail(Text(x)) == Some(Span(|Front(x)|, |Front(x)| + |x.key|))
  {
    hide MatchTail, Parse, Text, Front, SchemeEnd, IsSegment, IsKey, IsKeyCharacter;
    var i := |x.scheme| + |x.host|;
    var j := i + 1 + |x.path|;
    var end := j + 1 + |x.key|;
    TextSlices(x);
    ProperIsParsed(x);
    ParseIsMatched(Text(x), i, j, end);
    if end < MatchTail(Text(x)).value.end {
      assert Text(x)[end] == x.rest[0];
      TakenIsKey(Text(x), end);
    }
  }

  lemma ParsedIsProper(s: string, i: nat, j: nat, end: nat) returns (x: Stretch)
    requires Parse(s, i, j, end) && (end < |s| ==> !In(KeyChar, s[end]))
    ensures Proper(x) && s == Text(x) && |Front(x)| == j + 1 && |x.key| == end - j - 1
  {
    hide Text, Front, IsKey, IsSegment, In, AllIn;
    SchemeTexts(s);
    var h := SchemeEnd(s).value;
    x := Stretch(s[..h], s[h..i], s[i + 1..j], s[j + 1..end], s[end..]);
    SegmentTexts(x.host);
    SegmentTexts(x.path);
    KeyTexts(x.key);
    if x.rest != "" {
      KeyCharacters(s[end]);
    }
    Rejoined(s, h, i, j, end);
  }

  /** What is matched is a stretch. */
  lemma MatchedIsProper(s: string) returns (x: Stretch)
    requires MatchTail(s).Some?
    ensures Proper(x) && s == Text(x) && MatchTail(s) == Some(Span(|Front(x)|, |Front(x)| + |x.key|))
  {
    hide MatchTail, Parse, Proper, Text, Front;
    var i, j, end := MatchIsParsed(s);
    KeyStopsAtEnd(s);
    x := ParsedIsProper(s, i, j, end);
  }

  lemma Rejoined(s: string, h: nat, i: nat, j: nat, end: nat)
    requires h <= i && i + 1 <= j && j + 1 <= end <= |s| && s[i] == '/' && s[j] == '/'
    ensures
      var x := Stretch(s[..h], s[h..i], s[i + 1..j], s[j + 1..end], s[end..]);
      s == Text(x) && |Front(x)| == j + 1
  {
    assert s[..i] == s[..h] + s[h..i] && s[..i + 1] == s[..i] + "/";
    assert s[..j] == s[..i + 1] + s[i + 1..j] && s[..j + 1] == s[..j] + "/";
    assert s == s[..j + 1] + (s[j + 1..end] + s[end..]);
  }

  lemma KeyStopsAtEnd(s: string)
    requires MatchTail(s).Some?
    ensures
      var end := MatchTail(s).value.end;
      end < |s| ==> !In(KeyChar, s[end])
  {
    hide SchemeEnd, SegmentEnd, KeyEnd, In;
    var i := SegmentEnd(s, SchemeEnd(s).value).value;
    var j := SegmentEnd(s, i + 1).value;
    KeyEndStops(s, j + 1);
  }

  lemma KeyEndStops(s: string, from: nat)
    requires from <= |s| && KeyEnd(s, from).Some?
    ensures
      var end := KeyEnd(s, from).value;
      end < |s| ==> !In(KeyChar, s[end])
  {
    RunIsRun(KeyChar, s[from..]);
  }

  // ---------------------------------------------------------------------
  // The pass in these terms
  // ---------------------------------------------------------------------

  /** No stretch begins at any of the first `n` characters. */
  ghost predicate NoStretchIn(s: string, n: nat)
    requires n <= |s|
  {
    forall i: nat, x :: i < n && Proper(x) ==> s[i..] != Text(x)
  }

  lemma NoneMatched(before: string, s: string)
    requires NoStretchIn(before + s, |before|)
    ensures NoneIn(RtmpTail, before, s)
  {
    hide MatchTail, Text, Proper;
    forall i | 0 <= i < |before| ensures MatchFront(RtmpTail, before[i..] + s).None? {
      ConcatSlices(before, s, i);
      if MatchTail(before[i..] + s).Some? {
        var y := MatchedIsProper(before[i..] + s);
      }
    }
  }

  lemma StretchIsRewritten(x: Stretch)
    requires Proper(x)
    ensures Rewrite(RtmpTail, Text(x)) == Front(x) + PLACEHOLDER + Rewrite(RtmpTail, x.rest)
  {
    hide MatchTail, Proper, Rewrite, Front, Text;
    ProperIsMatched(x);
    TextSlices(x);
    RewriteAtMatch(RtmpTail, Text(x), Span(|Front(x)|, |Front(x)| + |x.key|));
  }

  /** The pass copies what stands before the first stretch, and the stretch up to
      its key, puts the placeholder for the whole key, and goes on behind it. */
  lemma TailPassReplacesKeys(before: string, x: Stretch)
    requires Proper(x) && NoStretchIn(before + Text(x), |before|)
    ensures Rewrite(RtmpTail, before + Text(x)) ==
            before + (x.scheme + x.host + "/" + x.path + "/" + "***REDACTED***" + Rewrite(RtmpTail, x.rest))
  {
    hide Rewrite, Text, Proper;
    NoneMatched(before, Text(x));
    RewriteSkips(RtmpTail, before, Text(x));
    StretchIsRewritten(x);
  }

  /** A text without a stretch is left unchanged. */
  lemma TailPassKeepsOthers(s: string)
    requires NoStretchIn(s, |s|)
    ensures Rewrite(RtmpTail, s) == s
  {
    hide Rewrite;
    assert s + "" == s;
    NoneMatched(s, "");
    RewriteSkips(RtmpTail, s, "");
    assert Rewrite(RtmpTail, "") == "" by { RewriteNothing(RtmpTail); }
    assert s + Rewrite(RtmpTail, "") == s;
  }

  /** A redacted line has no such stretch, whosever key it was. */
  lemma RedactedLineHasNoStretch(url: string, line: string)
    ensures NoStretchIn(RedactLine(url, line), |RedactLine(url, line)|)
  {
    hide Rewrite, MatchTail, Proper, Text, Front;
    var out := RedactLine(url, line);
    TailPassIdempotent(if Contains(line, url) then Rewrite(Literal(url), line) else line);
    forall i: nat, x | i < |out| && Proper(x) ensures out[i..] != Text(x) {
      ProperIsMatched(x);
      assert MatchFront(RtmpTail, out[i..]).None?;
    }
  }

  /** In a line without the worker's own URL the first such stretch keeps its path
      and loses its key, and what precedes it is kept. */
  lemma OtherKeysAreReplaced(url: string, before: string, x: Stretch)
    requires Proper(x) && NoStretchIn(before + Text(x), |before|) && !Contains(before + Text(x), url)
    ensures RedactLine(url, before + Text(x)) ==
            before + (x.scheme + x.host + "/" + x.path + "/" + "***REDACTED***" + Rewrite(RtmpTail, x.rest))
  {
    TailPassReplacesKeys(before, x);
  }
}
