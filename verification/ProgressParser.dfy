/** The ffmpeg progress parser of app/fanout/progress_parser.py. Values stay the
    texts ffmpeg printed; converting them to numbers is not part of the model. */
module ProgressParser {
  import opened Options
  import opened Lines

  const LINE_MAX_LEN := 256
  const FRAME_MAX_PAIRS := 64

  const INTEREST := {"frame", "fps", "bitrate", "out_time_us", "dup_frames", "drop_frames", "speed", "progress"}

  type Pairs = map<string, string>

  datatype Entry = Noise | Pair(key: string, value: string)

  datatype Frame = Frame(values: Pairs)

  datatype ParseError = LineTooLong | TooManyPairs

  /** `rstrip("\r")`. */
  function StripReturns(line: string): string {
    if line != "" && line[|line| - 1] == '\r' then StripReturns(line[..|line| - 1]) else line
  }

  function FindEquals(line: string): (n: Option<nat>)
    ensures n.Some? ==> n.value < |line|
  {
    if line == "" then None
    else if line[0] == '=' then Some(0)
    else match FindEquals(line[1..]) case None => None case Some(n) => Some(n + 1)
  }

  function ReadLine(raw: string): Entry {
    var line := StripReturns(raw);
    match FindEquals(line)
    case None => Noise
    case Some(n) => if line[..n] in INTEREST then Pair(line[..n], line[n + 1..]) else Noise
  }

  predicate Framing(value: string) { value == "continue" || value == "end" }

  // ---------------------------------------------------------------------
  // The parser
  // ---------------------------------------------------------------------

  /** What one feed yields, the buffer and pairs it leaves, and the error that
      ended it, if one did. */
  datatype Outcome = Outcome(frames: seq<Frame>, buf: string, pairs: Pairs, error: Option<ParseError>)

  function Yielding(f: seq<Frame>, o: Outcome): Outcome { o.(frames := f + o.frames) }

  /** One line's effect: the pairs after it and the frame it completes. */
  datatype Taken = Taken(pairs: Pairs, frames: seq<Frame>, overflow: bool)

  function Take(pairs: Pairs, line: string): Taken {
    match ReadLine(line)
    case Noise => Taken(pairs, [], false)
    case Pair(k, v) =>
      var held := pairs[k := v];
      if |held| > FRAME_MAX_PAIRS then Taken(held, [], true)
      else if k != "progress" then Taken(held, [], false)
      else Taken(map[], if Framing(v) then [Frame(held)] else [], false)
  }

  function Drain(buf: string, pairs: Pairs): Outcome
    decreases |buf|
  {
    match FindNewline(buf)
    case None => Outcome([], buf, pairs, if |buf| > LINE_MAX_LEN then Some(LineTooLong) else None)
    case Some(n) =>
      var t := Take(pairs, buf[..n]);
      if t.overflow then Outcome([], buf[n + 1..], t.pairs, Some(TooManyPairs))
      else Yielding(t.frames, Drain(buf[n + 1..], t.pairs))
  }

  class Parser {
    var buf: string
    var pairs: Pairs

    constructor ()
      ensures buf == "" && pairs == map[]
    {
      buf, pairs := "", map[];
    }

    /** Appends a chunk and returns the frames it completes. */
    method Feed(data: string) returns (frames: seq<Frame>, error: Option<ParseError>)
      modifies this
      ensures Outcome(frames, buf, pairs, error) == Drain(old(buf) + data, old(pairs))
    {
      buf := buf + data;
      frames := [];
      ghost var goal := Drain(buf, pairs);
      while true
        invariant goal == Yielding(frames, Drain(buf, pairs))
        decreases |buf|
      {
        var nl := FindNewline(buf);
        if nl.None? {
          error := if |buf| > LINE_MAX_LEN then Some(LineTooLong) else None;
          return;
        }
        ghost var before, held, yielded := buf, pairs, frames;
        var line := buf[..nl.value];
        buf := buf[nl.value + 1..];
        var done, overflow := TakeLine(line);
        if overflow {
          error := Some(TooManyPairs);
          return;
        }
        frames := frames + done;
        YieldMore(yielded, done, Drain(buf, pairs));
      }
    }

    /** Stores the pair a line holds and, at a progress line, closes the frame. */
    method TakeLine(line: string) returns (done: seq<Frame>, overflow: bool)
      modifies this`pairs
      ensures Taken(pairs, done, overflow) == Take(old(pairs), line)
    {
      done, overflow := [], false;
      var entry := ReadLine(line);
      if entry.Noise? {
        return;
      }
      pairs := pairs[entry.key := entry.value];
      if |pairs| > FRAME_MAX_PAIRS {
        overflow := true;
        return;
      }
      if entry.key == "progress" {
        if Framing(entry.value) {
          done := [Frame(pairs)];
        }
        pairs := map[];
      }
    }
  }

  lemma YieldMore(a: seq<Frame>, b: seq<Frame>, o: Outcome)
    ensures Yielding(a + b, o) == Yielding(a, Yielding(b, o))
  {
  }

  // ---------------------------------------------------------------------
  // Lines, written out
  // ---------------------------------------------------------------------

  ghost predicate AllReturns(s: string) {
    forall i :: 0 <= i < |s| ==> s[i] == '\r'
  }

  lemma {:induction false} ReturnsAreStripped(body: string, crs: string)
    requires AllReturns(crs) && (body != "" ==> body[|body| - 1] != '\r')
    ensures StripReturns(body + crs) == body
    decreases |crs|
  {
    if crs == "" {
      assert body + crs == body;
    } else {
      var n := |crs| - 1;
      assert (body + crs)[..|body + crs| - 1] == body + crs[..n];
      ReturnsAreStripped(body, crs[..n]);
    }
  }

  lemma {:induction false} EqualsIsFirst(key: string, value: string)
    requires '=' !in key
    ensures FindEquals(key + "=" + value) == Some(|key|)
    decreases |key|
  {
    var line := key + "=" + value;
    if key != "" {
      assert line[0] == key[0] && line[1..] == key[1..] + "=" + value;
      EqualsIsFirst(key[1..], value);
    }
  }

  lemma {:induction false} NoEquals(line: string)
    requires '=' !in line
    ensures FindEquals(line) == None
  {
    if line != "" {
      NoEquals(line[1..]);
    }
  }

  /** A line without an equals sign is passed over. In any other, what stands
      before the first one is the key, and what stands behind it, up to the
      carriage returns at the end, is the value, for eight keys and no others. */
  lemma LineIsKeyAndValue(key: string, value: string, crs: string)
    requires '=' !in key && AllReturns(crs) && (value != "" ==> value[|value| - 1] != '\r')
    ensures ReadLine(key + "=" + value + crs) ==
            if key in {"frame", "fps", "bitrate", "out_time_us", "dup_frames", "drop_frames", "speed", "progress"}
            then Pair(key, value) else Noise
    ensures (key != "" ==> key[|key| - 1] != '\r') ==> ReadLine(key + crs) == Noise
  {
    var body := key + "=" + value;
    ReturnsAreStripped(body, crs);
    EqualsIsFirst(key, value);
    assert body[..|key|] == key && body[|key| + 1..] == value;
    if key != "" ==> key[|key| - 1] != '\r' {
      ReturnsAreStripped(key, crs);
      NoEquals(key);
    }
  }

  /** A progress line takes the pairs held, and its own, into a frame if its value
      is "continue" or "end", and drops them if not; any other line of interest
      puts its value in the place of an earlier one. */
  lemma ProgressLineCloses(held: Pairs, key: string, value: string, crs: string)
    requires held.Keys <= INTEREST && '=' !in key && AllReturns(crs)
    requires value != "" ==> value[|value| - 1] != '\r'
    ensures Take(held, key + "=" + value + crs) ==
            if key !in INTEREST then Taken(held, [], false)
            else if key != "progress" then Taken(held[key := value], [], false)
            else Taken(map[], if value == "continue" || value == "end" then [Frame(held["progress" := value])] else [],
                       false)
  {
    LineIsKeyAndValue(key, value, crs);
    TakeKeepsInterest(held, key + "=" + value + crs);
  }

  // ---------------------------------------------------------------------
  // The pair limit is never met
  // ---------------------------------------------------------------------

  lemma SubsetSize<T>(a: set<T>, b: set<T>)
    requires a <= b
    ensures |a| <= |b|
  {
    assert b == a + (b - a);
  }

  lemma AtMostEight(pairs: Pairs)
    requires pairs.Keys <= INTEREST
    ensures |pairs| <= 8
  {
    SubsetSize(pairs.Keys, INTEREST);
  }

  lemma TakeKeepsInterest(pairs: Pairs, line: string)
    requires pairs.Keys <= INTEREST
    ensures
      var t := Take(pairs, line);
      && !t.overflow && t.pairs.Keys <= INTEREST
      && forall i :: 0 <= i < |t.frames| ==> t.frames[i].values.Keys <= INTEREST
  {
    KeyIsOfInterest(line);
    var e := ReadLine(line);
    if e.Pair? {
      AtMostEight(pairs[e.key := e.value]);
    }
  }

  /** For every input, the parser holds at most the eight keys of interest, so
      the error for too many pairs cannot be raised. */
  lemma {:induction false} NeverTooManyPairs(buf: string, pairs: Pairs)
    requires pairs.Keys <= INTEREST
    ensures
      var o := Drain(buf, pairs);
      && o.error != Some(TooManyPairs)
      && o.pairs.Keys <= INTEREST && |o.pairs| <= 8
      && forall i :: 0 <= i < |o.frames| ==> o.frames[i].values.Keys <= INTEREST
    decreases |buf|
  {
    hide Take, FindNewline;
    AtMostEight(pairs);
    if FindNewline(buf).Some? {
      var n := FindNewline(buf).value;
      TakeKeepsInterest(pairs, buf[..n]);
      NeverTooManyPairs(buf[n + 1..], Take(pairs, buf[..n]).pairs);
    }
  }

  /** A feed fails if and only if more than 256 bytes stand behind the last
      newline; the lines before it have been taken all the same. */
  lemma {:induction false} FailsExactlyIfTooLong(buf: string, pairs: Pairs)
    requires pairs.Keys <= INTEREST
    ensures Drain(buf, pairs).error == if |SplitLines(buf).rest| > 256 then Some(LineTooLong) else None
    ensures Drain(buf, pairs).buf == SplitLines(buf).rest
    decreases |buf|
  {
    hide Take, FindNewline;
    if FindNewline(buf).Some? {
      var n := FindNewline(buf).value;
      TakeKeepsInterest(pairs, buf[..n]);
      FailsExactlyIfTooLong(buf[n + 1..], Take(pairs, buf[..n]).pairs);
    }
  }

  // ---------------------------------------------------------------------
  // What a frame holds
  // ---------------------------------------------------------------------

  /** Line by line, without a buffer. */
  datatype Parsed = Parsed(frames: seq<Frame>, pairs: Pairs)

  function Absorb(s: Parsed, line: string): Parsed {
    var t := Take(s.pairs, line);
    Parsed(s.frames + t.frames, t.pairs)
  }

  function ParseLines(lines: seq<string>, s: Parsed): Parsed
    decreases |lines|
  {
    if lines == [] then s else ParseLines(lines[1..], Absorb(s, lines[0]))
  }

  lemma {:induction false} ParseConcat(a: seq<string>, b: seq<string>, s: Parsed)
    ensures ParseLines(a + b, s) == ParseLines(b, ParseLines(a, s))
    decreases |a|
  {
    if a == [] {
      assert a + b == b;
    } else {
      assert (a + b)[1..] == a[1..] + b;
      ParseConcat(a[1..], b, Absorb(s, a[0]));
    }
  }

  predicate IsProgress(line: string) {
    ReadLine(line).Pair? && ReadLine(line).key == "progress"
  }

  /** The last value some line gives a key. */
  function LastValue(lines: seq<string>, key: string): Option<string> {
    if lines == [] then None
    else
      var e := ReadLine(lines[|lines| - 1]);
      if e.Pair? && e.key == key then Some(e.value) else LastValue(lines[..|lines| - 1], key)
  }

  /** The lines after the last progress line. */
  function SinceProgress(lines: seq<string>): seq<string> {
    if lines == [] || IsProgress(lines[|lines| - 1]) then []
    else SinceProgress(lines[..|lines| - 1]) + [lines[|lines| - 1]]
  }

  function LastValues(lines: seq<string>): Pairs {
    map k | k in INTEREST && LastValue(lines, k).Some? :: LastValue(lines, k).value
  }

  /** The frames of a list of lines, said without parser state: one for each
      progress line with a framing value, holding the last value of every key
      among the lines since the progress line before. */
  function FramesOf(lines: seq<string>): seq<Frame> {
    if lines == [] then []
    else
      var n := |lines| - 1;
      FramesOf(lines[..n]) +
      if IsProgress(lines[n]) && Framing(ReadLine(lines[n]).value)
      then [Frame(LastValues(SinceProgress(lines[..n]) + [lines[n]]))] else []
  }

  lemma KeyIsOfInterest(line: string)
    ensures ReadLine(line).Pair? ==> ReadLine(line).key in INTEREST
  {
  }

  lemma LastValuesAppend(lines: seq<string>, line: string)
    ensures
      var e := ReadLine(line);
      LastValues(lines + [line]) ==
        if e.Pair? then LastValues(lines)[e.key := e.value] else LastValues(lines)
  {
    KeyIsOfInterest(line);
    assert (lines + [line])[..|lines|] == lines;
    var e := ReadLine(line);
    var x, y := LastValues(lines + [line]), LastValues(lines);
    forall k | k in INTEREST
      ensures LastValue(lines + [line], k) == if e.Pair? && e.key == k then Some(e.value) else LastValue(lines, k)
    {
    }
    if e.Pair? {
      assert x == y[e.key := e.value];
    } else {
      assert x == y;
    }
  }

  lemma LastValuesOfInterest(lines: seq<string>)
    ensures LastValues(lines).Keys <= INTEREST
  {
  }

  /** Parsing line by line yields exactly those frames. */
  lemma {:induction false} ParseIsFramesOf(lines: seq<string>)
    ensures ParseLines(lines, Parsed([], map[])) == Parsed(FramesOf(lines), LastValues(SinceProgress(lines)))
    decreases |lines|
  {
    assert LastValues([]) == map[];
    if lines != [] {
      var n := |lines| - 1;
      var before, line := lines[..n], lines[n];
      ParseIsFramesOf(before);
      assert lines == before + [line];
      ParseConcat(before, [line], Parsed([], map[]));
      ParseOne(line, ParseLines(before, Parsed([], map[])));
      LastLine(before, line);
    }
  }

  lemma ParseOne(line: string, s: Parsed)
    ensures ParseLines([line], s) == Absorb(s, line)
  {
    assert [line][1..] == [];
  }

  lemma LastLine(before: seq<string>, line: string)
    ensures
      var since := SinceProgress(before);
      Take(LastValues(since), line) ==
        Taken(if IsProgress(line) then map[] else LastValues(since + [line]),
              if IsProgress(line) && Framing(ReadLine(line).value)
              then [Frame(LastValues(since + [line]))] else [],
              false)
  {
    var since := SinceProgress(before);
    LastValuesOfInterest(since);
    TakeKeepsInterest(LastValues(since), line);
    LastValuesAppend(since, line);
  }

  // ---------------------------------------------------------------------
  // Chunking
  // ---------------------------------------------------------------------

  lemma {:induction false} DrainIsParse(buf: string, pairs: Pairs)
    requires pairs.Keys <= INTEREST && ShortRuns(buf, LINE_MAX_LEN)
    ensures
      var cut := SplitLines(buf);
      var parsed := ParseLines(cut.lines, Parsed([], pairs));
      Drain(buf, pairs) == Outcome(parsed.frames, cut.rest, parsed.pairs, None)
    decreases |buf|
  {
    match FindNewline(buf)
    case None =>
      assert buf[0..|buf|] == buf;
    case Some(n) =>
      var line, later := buf[..n], buf[n + 1..];
      ShortRunsWithin(buf, LINE_MAX_LEN, n + 1, |buf|);
      assert buf[n + 1..|buf|] == later;
      TakeKeepsInterest(pairs, line);
      var t := Take(pairs, line);
      DrainIsParse(later, t.pairs);
      FramesPrefix(SplitLines(later).lines, t.frames, t.pairs);
      assert SplitLines(buf).lines[1..] == SplitLines(later).lines;
      assert [] + t.frames == t.frames;
  }

  lemma AbsorbPrefix(frames: seq<Frame>, s: Parsed, line: string)
    ensures
      var a := Absorb(s, line);
      Absorb(Parsed(frames + s.frames, s.pairs), line) == Parsed(frames + a.frames, a.pairs)
  {
  }

  lemma {:induction false} FramesPrefixed(lines: seq<string>, frames: seq<Frame>, s: Parsed)
    ensures
      var p := ParseLines(lines, s);
      ParseLines(lines, Parsed(frames + s.frames, s.pairs)) == Parsed(frames + p.frames, p.pairs)
    decreases |lines|
  {
    if lines != [] {
      AbsorbPrefix(frames, s, lines[0]);
      FramesPrefixed(lines[1..], frames, Absorb(s, lines[0]));
    }
  }

  lemma FramesPrefix(lines: seq<string>, frames: seq<Frame>, pairs: Pairs)
    ensures
      var p := ParseLines(lines, Parsed([], pairs));
      ParseLines(lines, Parsed(frames, pairs)) == Parsed(frames + p.frames, p.pairs)
  {
    FramesPrefixed(lines, frames, Parsed([], pairs));
    assert frames + [] == frames;
  }

  /** Feeding chunks one after the other, as long as none fails. */
  function FeedAll(o: Outcome, chunks: seq<string>): Outcome
    decreases |chunks|
  {
    if chunks == [] || o.error.Some? then o
    else FeedAll(Yielding(o.frames, Drain(o.buf + chunks[0], o.pairs)), chunks[1..])
  }

  lemma {:induction false} FeedAllIsParse(frames: seq<Frame>, buf: string, pairs: Pairs, chunks: seq<string>)
    requires pairs.Keys <= INTEREST && OneLine(buf) && ShortRuns(buf + Concat(chunks), LINE_MAX_LEN)
    ensures
      var cut := SplitLines(buf + Concat(chunks));
      var parsed := ParseLines(cut.lines, Parsed(frames, pairs));
      FeedAll(Outcome(frames, buf, pairs, None), chunks) == Outcome(parsed.frames, cut.rest, parsed.pairs, None)
    decreases |chunks|
  {
    if chunks == [] {
      assert buf + Concat(chunks) == buf;
    } else {
      var a, b := buf + chunks[0], Concat(chunks[1..]);
      assert buf + Concat(chunks) == a + b;
      ShortRunsParts(a, b, LINE_MAX_LEN);
      DrainIsParse(a, pairs);
      NeverTooManyPairs(a, pairs);
      var cut := SplitLines(a);
      FramesPrefix(cut.lines, frames, pairs);
      SplitIsExact(a);
      ShortRunsCarry(a, b, LINE_MAX_LEN);
      var o := Drain(a, pairs);
      FeedAllIsParse(frames + o.frames, cut.rest, o.pairs, chunks[1..]);
      SplitConcat(a, b);
      ParseConcat(cut.lines, SplitLines(cut.rest + b).lines, Parsed(frames, pairs));
    }
  }

  /** For every stream whose newline-free stretches are at most 256 bytes,
      however it is cut into chunks, a new parser yields without error exactly
      the frames of its lines. */
  lemma ChunkingDoesNotMatter(chunks: seq<string>)
    requires ShortRuns(Concat(chunks), LINE_MAX_LEN)
    ensures
      var cut := SplitLines(Concat(chunks));
      FeedAll(Outcome([], "", map[], None), chunks)
        == Outcome(FramesOf(cut.lines), cut.rest, LastValues(SinceProgress(cut.lines)), None)
  {
    assert "" + Concat(chunks) == Concat(chunks);
    FeedAllIsParse([], "", map[], chunks);
    ParseIsFramesOf(SplitLines(Concat(chunks)).lines);
  }
}
