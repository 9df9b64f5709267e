/** Searching, removing, and subsequences: what a lossy, order-keeping queue lets through. */
module Sequences {

  /** The first element with this key, or the length when none has it. */
  function IndexBy<T, K(==)>(s: seq<T>, keyOf: T -> K, key: K): (i: nat)
    ensures i <= |s| && (i < |s| ==> keyOf(s[i]) == key)
    ensures forall j :: 0 <= j < i ==> keyOf(s[j]) != key
  {
    if s == [] then 0 else
      var i := IndexBy(s[..|s| - 1], keyOf, key);
      if i < |s| - 1 || keyOf(s[i]) == key then i else |s|
  }

  function RemoveAt<T>(s: seq<T>, i: nat): (r: seq<T>)
    requires i < |s|
    ensures |r| == |s| - 1
  {
    s[..i] + s[i + 1..]
  }

  lemma {:induction false} RemoveMiddle<T>(before: seq<T>, x: T, rest: seq<T>)
    ensures var s := before + ([x] + rest);
      s == before + [x] + rest && s[|before|] == x && RemoveAt(s, |before|) == before + rest
  {
  }

  predicate Subseq<T(==)>(a: seq<T>, b: seq<T>) {
    if b == [] then a == []
    else Subseq(a, b[..|b| - 1]) || (a != [] && a[|a| - 1] == b[|b| - 1] && Subseq(a[..|a| - 1], b[..|b| - 1]))
  }

  lemma {:induction false} SubseqSelf<T>(a: seq<T>)
    ensures Subseq(a, a)
  {
    if a != [] { SubseqSelf(a[..|a| - 1]); }
  }

  lemma {:induction false} SubseqSnoc<T>(a: seq<T>, b: seq<T>, x: T)
    requires Subseq(a, b)
    ensures Subseq(a, b + [x]) && Subseq(a + [x], b + [x])
  {
    assert (b + [x])[..|b|] == b && (a + [x])[..|a|] == a;
  }

  lemma {:induction false} SubseqRemove<T>(a: seq<T>, b: seq<T>, i: nat)
    requires Subseq(a, b) && i < |a|
    ensures Subseq(a[..i] + a[i + 1..], b)
  {
    var b' := b[..|b| - 1];
    if Subseq(a, b') {
      SubseqRemove(a, b', i);
    } else {
      var a' := a[..|a| - 1];
      if i == |a| - 1 {
        assert a[..i] + a[i + 1..] == a';
      } else {
        SubseqRemove(a', b', i);
        var cut := a[..i] + a[i + 1..];
        assert cut[..|cut| - 1] == a'[..i] + a'[i + 1..];
        assert cut[|cut| - 1] == a[|a| - 1];
      }
    }
  }

  lemma {:induction false} SubseqPrefix<T>(a: seq<T>, b: seq<T>, n: nat)
    requires Subseq(a, b) && n <= |a|
    ensures Subseq(a[..n], b)
    decreases |a| - n
  {
    if n < |a| {
      SubseqRemove(a, b, |a| - 1);
      assert a[..|a| - 1] + a[|a|..] == a[..|a| - 1];
      SubseqPrefix(a[..|a| - 1], b, n);
      assert a[..|a| - 1][..n] == a[..n];
    } else {
      assert a[..n] == a;
    }
  }
}
