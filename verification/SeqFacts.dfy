/** Facts about slices that the verifier does not find by itself. */
module SeqFacts {
  lemma SliceOfSlice<T>(s: seq<T>, a: nat, b: nat, i: nat, j: nat)
    requires a <= b <= |s| && i <= j <= b - a
    ensures s[a..b][i..j] == s[a + i..a + j]
  {
    var x, y := s[a..b][i..j], s[a + i..a + j];
    assert |x| == |y|;
    forall k | 0 <= k < |x| ensures x[k] == y[k] {
      assert x[k] == s[a..b][i + k];
    }
  }

  lemma Regroup<T>(a: seq<T>, b: seq<T>, c: seq<T>, d: seq<T>)
    ensures a + b + c + d == a + (b + (c + d))
  {
  }

  lemma CutInThree<T>(s: seq<T>, i: nat, j: nat, d: seq<T>)
    requires i <= j <= |s|
    ensures s + d == s[..i] + (s[i..j] + (s[j..] + d))
  {
    assert s == s[..i] + s[i..j] + s[j..];
  }

  lemma HeadFirst<T>(a: seq<T>, b: seq<T>)
    requires a != []
    ensures a + b == [a[0]] + (a[1..] + b)
  {
  }

  lemma Assoc<T>(a: seq<T>, b: seq<T>, c: seq<T>)
    ensures a + b + c == a + (b + c)
  {
  }

  lemma SlicesOfAppended<T>(s: seq<T>, t: T, i: nat, j: nat)
    requires i <= j <= |s|
    ensures (s + [t])[i..j] == s[i..j] && (s + [t])[i..] == s[i..] + [t]
  {
  }

  lemma ConcatSlices<T>(a: seq<T>, b: seq<T>, k: nat)
    requires k <= |a|
    ensures (a + b)[k..] == a[k..] + b && (a + b)[..k] == a[..k]
  {
  }
}
