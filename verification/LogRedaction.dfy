/** The process-wide secret registry and the string redaction of
    app/logging_setup.py. */
module LogRedaction {
  import opened SeqFacts
  import opened Rewriting

  const MIN_SECRET_LENGTH := 12

  class CredentialRegistry {
    var secrets: set<string>

    ghost predicate Valid()
      reads this
    {
      forall s :: s in secrets ==> |s| >= MIN_SECRET_LENGTH
    }

    constructor ()
      ensures Valid() && secrets == {}
    {
      secrets := {};
    }

    /** Refuses a secret below the floor, the source's ValueError. */
    method Register(secret: string) returns (ok: bool)
      requires Valid()
      modifies this
      ensures Valid() && ok == (|secret| >= 12)
      ensures secrets == old(secrets) + if ok then {secret} else {}
    {
      ok := |secret| >= MIN_SECRET_LENGTH;
      if ok {
        secrets := secrets + {secret};
      }
    }

    method Unregister(secret: string)
      requires Valid()
      modifies this
      ensures Valid() && secrets == old(secrets) - {secret}
    {
      secrets := secrets - {secret};
    }
  }

  /** One literal pass per secret, in the given order. */
  function RedactInOrder(value: string, order: seq<string>): string
    decreases |order|
  {
    if order == [] then value else RedactInOrder(Rewrite(Literal(order[0]), value), order[1..])
  }

  /** A secret above the floor is longer than the placeholder's longest stretch
      without a star, so without a star of its own it cannot meet one. */
  lemma LongIsSeparable(secret: string)
    requires |secret| >= MIN_SECRET_LENGTH && '*' !in secret
    ensures Separable(secret)
  {
    StarFreeIsClear(secret);
    forall k | 0 <= k < |PLACEHOLDER| ensures !Agree(secret, PLACEHOLDER[k..]) {
      if k < 3 {
        assert PLACEHOLDER[k..][0] == '*' && secret[0] != '*';
      } else {
        assert PLACEHOLDER[k..][13 - k] == '*' && secret[13 - k] != '*';
      }
    }
  }

  /** A secret that is gone stays gone, whatever is redacted after it. */
  lemma {:induction false} StaysGone(value: string, order: seq<string>, secret: string)
    requires Separable(secret) && !Contains(value, secret)
    ensures !Contains(RedactInOrder(value, order), secret)
    decreases |order|
  {
    if order != [] {
      PassRemoves(Literal(order[0]), value, secret);
      StaysGone(Rewrite(Literal(order[0]), value), order[1..], secret);
    }
  }

  /** Whatever the text, and however the secrets nest or overlap, no listed
      separable secret is left, in whichever order they are taken. */
  lemma {:induction false} NoSecretIsLeft(value: string, order: seq<string>, secret: string)
    requires secret in order && Separable(secret)
    ensures !Contains(RedactInOrder(value, order), secret)
    decreases |order|
  {
    var next := Rewrite(Literal(order[0]), value);
    if order[0] == secret {
      PassRemoves(Literal(secret), value, secret);
      StaysGone(next, order[1..], secret);
    } else {
      NoSecretIsLeft(next, order[1..], secret);
    }
  }

  /** A text from which redaction does not remove a listed secret. */
  predicate Leaks(value: string, order: seq<string>, secret: string) {
    secret in order && Contains(RedactInOrder(value, order), secret)
  }

  /** A secret is safe in every text and every company exactly when it is
      separable, as every long enough one without a star is. */
  lemma SafeExactlyIfSeparable(secret: string)
    requires secret != ""
    ensures (exists value, order :: Leaks(value, order, secret)) <==> !Separable(secret)
    ensures |secret| >= MIN_SECRET_LENGTH && '*' !in secret ==> Separable(secret)
  {
    if |secret| >= MIN_SECRET_LENGTH && '*' !in secret {
      LongIsSeparable(secret);
    }
    if Separable(secret) {
      forall value, order | secret in order ensures !Leaks(value, order, secret) {
        NoSecretIsLeft(value, order, secret);
      }
    } else {
      var value := UnseparableSurvives(secret);
      var next := Rewrite(Literal(secret), value);
      assert RedactInOrder(value, [secret]) == RedactInOrder(next, []) by {
        assert [secret][1..] == [];
      }
      assert Leaks(value, [secret], secret);
    }
  }

  // ---------------------------------------------------------------------
  // Why the longest goes first
  // ---------------------------------------------------------------------

  lemma FrontBeforePlaceholder(word: string, a: string, b: string)
    requires Separable(word)
    ensures word <= a + (PLACEHOLDER + b) <==> word <= a
  {
    var s := a + (PLACEHOLDER + b);
    if word <= s && |word| > |a| {
      assert word[|a|..] <= s[|a|..] == PLACEHOLDER + b;
      PrefixesAgree(PLACEHOLDER + b, word[|a|..], PLACEHOLDER);
    }
  }

  lemma NoneInPlaceholder(word: string, b: string)
    requires Separable(word)
    ensures NoneIn(Literal(word), PLACEHOLDER, b)
  {
    forall k | 0 <= k < |PLACEHOLDER| ensures MatchFront(Literal(word), PLACEHOLDER[k..] + b).None? {
      if word <= PLACEHOLDER[k..] + b {
        PrefixesAgree(PLACEHOLDER[k..] + b, word, PLACEHOLDER[k..]);
      }
    }
  }

  /** A separable word is replaced on either side of a placeholder as if the
      other side were not there. */
  lemma {:induction false} AroundPlaceholder(word: string, a: string, b: string)
    requires Separable(word)
    ensures Rewrite(Literal(word), a + (PLACEHOLDER + b)) ==
            Rewrite(Literal(word), a) + (PLACEHOLDER + Rewrite(Literal(word), b))
    decreases |a|
  {
    var p := Literal(word);
    var right, right' := PLACEHOLDER + b, PLACEHOLDER + Rewrite(p, b);
    if a == "" {
      NoneInPlaceholder(word, b);
      RewriteSkips(p, PLACEHOLDER, b);
      assert a + right == right && Rewrite(p, a) + right' == right';
    } else {
      FrontBeforePlaceholder(word, a, b);
      var n := if word <= a then |word| else 1;
      ConcatSlices(a, right, n);
      AroundPlaceholder(word, a[n..], b);
      var copied := if word <= a then PLACEHOLDER else [a[0]];
      CopiedFront(p, a, n, copied);
      CopiedFront(p, a + right, n, copied);
      Assoc(copied, Rewrite(p, a[n..]), right');
    }
  }

  lemma CopiedFront(p: Pattern, s: string, n: nat, copied: string)
    requires p.Literal? && p.word != "" && s != ""
    requires if p.word <= s then n == |p.word| && copied == PLACEHOLDER else n == 1 && copied == [s[0]]
    ensures Rewrite(p, s) == copied + Rewrite(p, s[n..])
  {
    if p.word <= s {
      RewriteAtMatch(p, s, Span(0, n));
      assert s[..0] + PLACEHOLDER == PLACEHOLDER;
    } else {
      RewriteAtCopy(p, s);
    }
  }

  /** Longest first, the first place where the longer secret stands becomes one
      placeholder, whatever shorter secret it contains; what surrounds it is
      redacted on its own. */
  lemma LongestFirstLeavesNoTail(a: string, long: string, b: string, short: string)
    requires long != "" && Separable(short) && NoneIn(Literal(long), a, long + b)
    ensures RedactInOrder(a + (long + b), [long, short]) ==
            Rewrite(Literal(short), a) + (PLACEHOLDER + RedactInOrder(b, [long, short]))
  {
    var value := a + (long + b);
    RewriteSkips(Literal(long), a, long + b);
    WordAtFront(long, b);
    TwoInOrder(value, long, short);
    TwoInOrder(b, long, short);
    AroundPlaceholder(short, a, Rewrite(Literal(long), b));
  }

  /** The other way round, what extends the shorter secret stays behind it. */
  lemma ShortestFirstLeavesTail(a: string, short: string, tail: string, b: string)
    requires short != "" && NoneIn(Literal(short), a, short + (tail + b))
    ensures Rewrite(Literal(short), a + (short + (tail + b))) == a + (PLACEHOLDER + Rewrite(Literal(short), tail + b))
  {
    RewriteSkips(Literal(short), a, short + (tail + b));
    WordAtFront(short, tail + b);
  }

  lemma TwoInOrder(value: string, a: string, b: string)
    ensures RedactInOrder(value, [a, b]) == Rewrite(Literal(b), Rewrite(Literal(a), value))
  {
    var next := Rewrite(Literal(a), value);
    assert [a, b][1..] == [b] && [b][1..] == [];
    assert RedactInOrder(value, [a, b]) == RedactInOrder(next, [b]);
    assert RedactInOrder(next, [b]) == RedactInOrder(Rewrite(Literal(b), next), []);
  }

  /** A longest member of a set of texts. */
  lemma Longest(texts: set<string>) returns (t: string)
    requires texts != {}
    ensures t in texts && forall u :: u in texts ==> |u| <= |t|
    decreases |texts|
  {
    var x :| x in texts;
    if texts == {x} {
      t := x;
    } else {
      var rest := texts - {x};
      assert rest != {};
      var y := Longest(rest);
      t := if |x| < |y| then y else x;
    }
  }

  ghost predicate LongestFirst(order: seq<string>) {
    forall i, j :: 0 <= i < j < |order| ==> |order[i]| >= |order[j]|
  }

  lemma {:induction false} InOrderAppend(value: string, order: seq<string>, last: string)
    ensures RedactInOrder(value, order + [last]) == Rewrite(Literal(last), RedactInOrder(value, order))
    decreases |order|
  {
    var longer := order + [last];
    if order == [] {
      assert longer[1..] == [] && RedactInOrder(Rewrite(Literal(last), value), []) == Rewrite(Literal(last), value);
    } else {
      assert longer[1..] == order[1..] + [last];
      InOrderAppend(Rewrite(Literal(order[0]), value), order[1..], last);
    }
  }

  lemma {:induction false} CleanIsKept(value: string, order: seq<string>)
    requires forall i :: 0 <= i < |order| ==> !Contains(value, order[i])
    ensures RedactInOrder(value, order) == value
    decreases |order|
  {
    if order != [] {
      AbsentIsKept(value, order[0]);
      CleanIsKept(value, order[1..]);
    }
  }

  lemma Listed(order: seq<string>, secrets: set<string>)
    requires multiset(order) == multiset(secrets)
    ensures forall s :: s in order <==> s in secrets
  {
    forall s ensures s in order <==> s in secrets {
      assert s in order <==> s in multiset(order);
      assert s in secrets <==> s in multiset(secrets);
    }
  }

  /** What redaction with these secrets, in this order, promises of the result. */
  lemma RedactedInOrder(value: string, order: seq<string>, secrets: set<string>)
    requires multiset(order) == multiset(secrets)
    ensures forall s :: s in secrets && Separable(s) ==> !Contains(RedactInOrder(value, order), s)
    ensures forall s :: s in secrets && |s| >= MIN_SECRET_LENGTH && '*' !in s ==>
      !Contains(RedactInOrder(value, order), s)
    ensures (forall s :: s in secrets ==> !Contains(value, s)) ==> RedactInOrder(value, order) == value
  {
    Listed(order, secrets);
    forall s | s in secrets && Separable(s) ensures !Contains(RedactInOrder(value, order), s) {
      NoSecretIsLeft(value, order, s);
    }
    forall s | s in secrets && |s| >= MIN_SECRET_LENGTH && '*' !in s ensures Separable(s) {
      LongIsSeparable(s);
    }
    if forall s :: s in secrets ==> !Contains(value, s) {
      CleanIsKept(value, order);
    }
  }

  /** `_redact_string`: every secret once, the longest first, each tested before it
      is replaced; the order among equal lengths is not determined. */
  method RedactString(value: string, secrets: set<string>) returns (out: string, ghost order: seq<string>)
    ensures multiset(order) == multiset(secrets) && LongestFirst(order) && out == RedactInOrder(value, order)
    ensures forall s :: s in secrets && Separable(s) ==> !Contains(out, s)
    ensures forall s :: s in secrets && |s| >= MIN_SECRET_LENGTH && '*' !in s ==> !Contains(out, s)
    ensures (forall s :: s in secrets ==> !Contains(value, s)) ==> out == value
  {
    hide RedactInOrder, Contains, Rewrite;
    out, order := value, [];
    assert RedactInOrder(value, []) == value by { CleanIsKept(value, []); }
    var todo := secrets;
    while todo != {}
      invariant multiset(order) + multiset(todo) == multiset(secrets)
      invariant LongestFirst(order) && forall i, t :: 0 <= i < |order| && t in todo ==> |t| <= |order[i]|
      invariant out == RedactInOrder(value, order)
      decreases todo
    {
      ghost var longest := Longest(todo);
      var secret :| secret in todo && forall t :: t in todo ==> |t| <= |secret|;
      InOrderAppend(value, order, secret);
      if Contains(out, secret) {
        out := Rewrite(Literal(secret), out);
      } else {
        AbsentIsKept(out, secret);
      }
      assert multiset(todo) == multiset(todo - {secret}) + multiset{secret};
      todo := todo - {secret};
      order := order + [secret];
    }
    RedactedInOrder(value, order, secrets);
  }

  /** Redaction with the secrets on the registry: in their order, and every one
      without a star is gone. */
  method RedactWith(registry: CredentialRegistry, value: string) returns (out: string, ghost order: seq<string>)
    requires registry.Valid()
    ensures multiset(order) == multiset(registry.secrets) && LongestFirst(order) && out == RedactInOrder(value, order)
    ensures forall s :: s in registry.secrets && '*' !in s ==> !Contains(out, s)
  {
    out, order := RedactString(value, registry.secrets);
  }
}
