/** Cutting a byte stream at newlines, as the redaction sink and the progress
    parser both do with a buffer that grows chunk by chunk. */
module Lines {
  import opened Options
  import opened SeqFacts

  const NEWLINE := '\n'

  predicate OneLine(s: string) { NEWLINE !in s }

  /** `find(b"\n")`. */
  function FindNewline(s: string): (n: Option<nat>)
    ensures n.None? ==> OneLine(s)
    ensures n.Some? ==> n.value < |s| && s[n.value] == NEWLINE && OneLine(s[..n.value])
  {
    if s == [] then None
    else if s[0] == NEWLINE then Some(0)
    else
      match FindNewline(s[1..])
      case None => None
      case Some(n) =>
        assert s[..n + 1] == [s[0]] + s[1..][..n];
        Some(n + 1)
  }

  /** The lines a text completes, without their newlines, and what follows the
      last newline. */
  datatype Cut = Cut(lines: seq<string>, rest: string)

  function SplitLines(s: string): Cut
    decreases |s|
  {
    match FindNewline(s)
    case None => Cut([], s)
    case Some(n) =>
      var later := SplitLines(s[n + 1..]);
      Cut([s[..n]] + later.lines, later.rest)
  }

  function Join(c: Cut): string
    decreases |c.lines|
  {
    if c.lines == [] then c.rest else c.lines[0] + [NEWLINE] + Join(Cut(c.lines[1..], c.rest))
  }

  /** Cutting loses nothing, and cuts at every newline. */
  lemma {:induction false} SplitIsExact(s: string)
    ensures Join(SplitLines(s)) == s
    ensures OneLine(SplitLines(s).rest)
    ensures forall i :: 0 <= i < |SplitLines(s).lines| ==> OneLine(SplitLines(s).lines[i])
    decreases |s|
  {
    hide Join;
    match FindNewline(s)
    case None =>
      assert SplitLines(s) == Cut([], s);
      JoinNone(s);
    case Some(n) =>
      SplitIsExact(s[n + 1..]);
      JoinCons(s[..n], SplitLines(s[n + 1..]));
      AtNewline(s, n);
  }

  lemma JoinNone(rest: string)
    ensures Join(Cut([], rest)) == rest
  {
  }

  lemma JoinCons(line: string, c: Cut)
    ensures Join(Cut([line] + c.lines, c.rest)) == line + [NEWLINE] + Join(c)
  {
    assert ([line] + c.lines)[1..] == c.lines;
  }

  lemma AtNewline(s: string, n: nat)
    requires n < |s| && s[n] == NEWLINE
    ensures s == s[..n] + [NEWLINE] + s[n + 1..]
  {
  }

  lemma FindInConcat(a: string, b: string)
    requires FindNewline(a).Some?
    ensures FindNewline(a + b) == FindNewline(a)
  {
    var n := FindNewline(a).value;
    FirstNewline(a + b, n);
  }

  lemma {:induction false} FirstNewline(s: string, n: nat)
    requires n < |s| && s[n] == NEWLINE && forall i :: 0 <= i < n ==> s[i] != NEWLINE
    ensures FindNewline(s) == Some(n)
  {
    if n > 0 {
      FirstNewline(s[1..], n - 1);
    }
  }

  /** The cut of a text continued by `b`, from the cut of the text. */
  function Continued(first: Cut, b: string): Cut {
    var second := SplitLines(first.rest + b);
    Cut(first.lines + second.lines, second.rest)
  }

  lemma ContinuedCons(line: string, first: Cut, b: string)
    ensures
      var c := Continued(first, b);
      Continued(Cut([line] + first.lines, first.rest), b) == Cut([line] + c.lines, c.rest)
  {
  }

  /** Lines may be cut off as they come: what is left over joins the next chunk. */
  lemma {:induction false} SplitConcat(a: string, b: string)
    ensures SplitLines(a + b) == Continued(SplitLines(a), b)
    decreases |a|
  {
    match FindNewline(a)
    case None =>
      assert SplitLines(a) == Cut([], a);
    case Some(n) =>
      hide FindNewline;
      FindInConcat(a, b);
      SplitConcat(a[n + 1..], b);
      SplitStep(a, b, n);
      ContinuedCons(a[..n], SplitLines(a[n + 1..]), b);
  }

  lemma SplitStep(a: string, b: string, n: nat)
    requires FindNewline(a) == Some(n) && FindNewline(a + b) == Some(n)
    ensures
      var tail := SplitLines(a[n + 1..] + b);
      SplitLines(a + b) == Cut([a[..n]] + tail.lines, tail.rest)
  {
    assert (a + b)[n + 1..] == a[n + 1..] + b;
    assert (a + b)[..n] == a[..n];
  }

  /** Every newline-free stretch of `s` is at most `n` long. */
  ghost predicate ShortRuns(s: string, n: nat) {
    forall i, j :: 0 <= i <= j <= |s| && OneLine(s[i..j]) ==> j - i <= n
  }

  lemma ShortRunsWithin(s: string, n: nat, from: nat, to: nat)
    requires ShortRuns(s, n) && from <= to <= |s|
    ensures ShortRuns(s[from..to], n)
  {
    forall i, j | 0 <= i <= j <= to - from && OneLine(s[from..to][i..j])
      ensures j - i <= n
    {
      SliceOfSlice(s, from, to, i, j);
    }
  }

  lemma ShortRunsParts(a: string, b: string, n: nat)
    requires ShortRuns(a + b, n)
    ensures ShortRuns(a, n) && ShortRuns(b, n)
  {
    ShortRunsWithin(a + b, n, 0, |a|);
    ShortRunsWithin(a + b, n, |a|, |a| + |b|);
    assert (a + b)[0..|a|] == a && (a + b)[|a|..|a| + |b|] == b;
  }

  /** The leftover of a prefix, joined with the rest, is a suffix of the whole. */
  lemma {:induction false} RestIsSuffix(a: string)
    ensures
      var rest := SplitLines(a).rest;
      |rest| <= |a| && rest == a[|a| - |rest|..]
    decreases |a|
  {
    match FindNewline(a)
    case None =>
      assert SplitLines(a) == Cut([], a);
    case Some(n) =>
      RestIsSuffix(a[n + 1..]);
      var rest := SplitLines(a[n + 1..]).rest;
      assert SplitLines(a).rest == rest;
      assert a[n + 1..][|a| - n - 1 - |rest|..] == a[|a| - |rest|..];
  }

  lemma ShortRunsCarry(a: string, b: string, n: nat)
    requires ShortRuns(a + b, n)
    ensures ShortRuns(SplitLines(a).rest + b, n)
  {
    RestIsSuffix(a);
    var rest := SplitLines(a).rest;
    hide SplitLines, ShortRuns;
    ShortRunsWithin(a + b, n, |a| - |rest|, |a| + |b|);
    assert rest + b == (a + b)[|a| - |rest|..|a| + |b|];
  }

  /** All the chunks of a stream, in order. */
  function Concat(chunks: seq<string>): string {
    if chunks == [] then "" else chunks[0] + Concat(chunks[1..])
  }
}
