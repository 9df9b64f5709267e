/**
 Stable sorting by an integer key: what Array.prototype.sort promises (ECMA-262,
 section 23.1.3.30) for a comparator that orders by that key. `Sort` is one
 concrete stable sort; `StableSortIsUnique` shows that every other stable sort
 returns the same sequence, so nothing depends on the engine's algorithm.
 */
module StableSort {

  /** The elements of `s` that satisfy `p`, in order. */
  function Filter<T(!new)>(s: seq<T>, p: T -> bool): seq<T> {
    if s == [] then [] else
      var rest := Filter(s[..|s| - 1], p);
      var last := s[|s| - 1];
      if p(last) then rest + [last] else rest
  }

  function HasKey<T(!new)>(key: T -> int, k: int): T -> bool { t => key(t) == k }

  ghost predicate Sorted<T(!new)>(s: seq<T>, key: T -> int) {
    forall i, j :: 0 <= i < j < |s| ==> key(s[i]) <= key(s[j])
  }

  /** `b` keeps, inside every class of equal keys, the order `a` had. */
  ghost predicate SameOrderWithinKeys<T(!new)>(a: seq<T>, b: seq<T>, key: T -> int) {
    forall k :: Filter(a, HasKey(key, k)) == Filter(b, HasKey(key, k))
  }

  /** Puts `x` after every element whose key is not larger. */
  function Insert<T(!new)>(s: seq<T>, x: T, key: T -> int): (r: seq<T>)
  {
    if s == [] || key(s[|s| - 1]) <= key(x) then s + [x]
    else Insert(s[..|s| - 1], x, key) + [s[|s| - 1]]
  }

  function Sort<T(!new)>(s: seq<T>, key: T -> int): (r: seq<T>) {
    if s == [] then [] else Insert(Sort(s[..|s| - 1], key), s[|s| - 1], key)
  }

  // ---- filters ----

  lemma {:induction false} FilterMembers<T(!new)>(s: seq<T>, p: T -> bool)
    ensures forall x :: x in Filter(s, p) <==> x in s && p(x)
  {
    if s != [] { FilterMembers(s[..|s| - 1], p); }
  }

  lemma {:induction false} FilterConcat<T(!new)>(a: seq<T>, b: seq<T>, p: T -> bool)
    ensures Filter(a + b, p) == Filter(a, p) + Filter(b, p)
  {
    if b == [] {
      assert a + b == a;
    } else {
      assert (a + b)[..|a + b| - 1] == a + b[..|b| - 1];
      FilterConcat(a, b[..|b| - 1], p);
    }
  }

  lemma {:induction false} FilterCommutes<T(!new)>(s: seq<T>, p: T -> bool, q: T -> bool)
    ensures Filter(Filter(s, p), q) == Filter(Filter(s, q), p)
  {
    if s != [] {
      var init, last := s[..|s| - 1], s[|s| - 1];
      FilterCommutes(init, p, q);
      FilterConcat(Filter(init, p), [last], q);
      FilterConcat(Filter(init, q), [last], p);
    }
  }

  lemma {:induction false} FilterAll<T(!new)>(s: seq<T>, p: T -> bool)
    requires forall x :: x in s ==> p(x)
    ensures Filter(s, p) == s
  {
    if s != [] { FilterAll(s[..|s| - 1], p); }
  }

  lemma {:induction false} FilterNone<T(!new)>(s: seq<T>, p: T -> bool)
    requires forall x :: x in s ==> !p(x)
    ensures Filter(s, p) == []
  {
    if s != [] { FilterNone(s[..|s| - 1], p); }
  }

  lemma {:induction false} FilterKeepsSorted<T(!new)>(s: seq<T>, p: T -> bool, key: T -> int)
    requires Sorted(s, key)
    ensures Sorted(Filter(s, p), key)
  {
    if s != [] {
      var init, last := s[..|s| - 1], s[|s| - 1];
      FilterKeepsSorted(init, p, key);
      FilterMembers(init, p);
      forall x | x in Filter(init, p) ensures key(x) <= key(last) {
        var i :| 0 <= i < |init| && init[i] == x;
        assert s[i] == x;
      }
    }
  }

  // ---- the sort ----

  lemma {:induction false} InsertIsPermutation<T(!new)>(s: seq<T>, x: T, key: T -> int)
    ensures multiset(Insert(s, x, key)) == multiset(s) + multiset{x}
  {
    if s == [] || key(s[|s| - 1]) <= key(x) {
    } else {
      InsertIsPermutation(s[..|s| - 1], x, key);
      assert s == s[..|s| - 1] + [s[|s| - 1]];
    }
  }

  lemma {:induction false} SortIsPermutation<T(!new)>(s: seq<T>, key: T -> int)
    ensures multiset(Sort(s, key)) == multiset(s)
    ensures |Sort(s, key)| == |s|
    ensures forall x :: x in Sort(s, key) <==> x in s
  {
    if s != [] {
      SortIsPermutation(s[..|s| - 1], key);
      InsertIsPermutation(Sort(s[..|s| - 1], key), s[|s| - 1], key);
      assert s == s[..|s| - 1] + [s[|s| - 1]];
    }
    assert |multiset(Sort(s, key))| == |multiset(s)|;
    forall x ensures x in Sort(s, key) <==> x in s {
      assert x in Sort(s, key) <==> x in multiset(Sort(s, key));
      assert x in s <==> x in multiset(s);
    }
  }

  lemma {:induction false} InsertSorted<T(!new)>(s: seq<T>, x: T, key: T -> int)
    requires Sorted(s, key)
    ensures Sorted(Insert(s, x, key), key)
  {
    if s == [] || key(s[|s| - 1]) <= key(x) {
    } else {
      var init, last := s[..|s| - 1], s[|s| - 1];
      InsertSorted(init, x, key);
      InsertIsPermutation(init, x, key);
      forall y | y in Insert(init, x, key) ensures key(y) <= key(last) {
        assert y in multiset(Insert(init, x, key));
        if y != x {
          assert y in multiset(init);
          var i :| 0 <= i < |init| && init[i] == y;
          assert s[i] == y;
        }
      }
    }
  }

  lemma {:induction false} InsertStable<T(!new)>(s: seq<T>, x: T, key: T -> int, k: int)
    ensures Filter(Insert(s, x, key), HasKey(key, k)) == Filter(s + [x], HasKey(key, k))
  {
    if s == [] || key(s[|s| - 1]) <= key(x) {
    } else {
      var p := HasKey(key, k);
      var init, last := s[..|s| - 1], s[|s| - 1];
      InsertStable(init, x, key, k);
      FilterConcat(init, [x], p);
      FilterConcat(s, [x], p);
      FilterConcat(Insert(init, x, key), [last], p);
      assert s == init + [last];
      FilterConcat(init, [last], p);
    }
  }

  lemma {:induction false} SortSorted<T(!new)>(s: seq<T>, key: T -> int)
    ensures Sorted(Sort(s, key), key)
  {
    if s != [] {
      SortSorted(s[..|s| - 1], key);
      InsertSorted(Sort(s[..|s| - 1], key), s[|s| - 1], key);
    }
  }

  lemma {:induction false} SortKeepsKeyClass<T(!new)>(s: seq<T>, key: T -> int, k: int)
    ensures Filter(s, HasKey(key, k)) == Filter(Sort(s, key), HasKey(key, k))
  {
    if s != [] {
      var p := HasKey(key, k);
      var init, last := s[..|s| - 1], s[|s| - 1];
      SortKeepsKeyClass(init, key, k);
      InsertStable(Sort(init, key), last, key, k);
      FilterConcat(Sort(init, key), [last], p);
      FilterConcat(init, [last], p);
      assert s == init + [last];
    }
  }

  /** `Sort` delivers what the standard asks of a sort: ordered, a permutation, stable. */
  lemma {:induction false} SortMeetsStandard<T(!new)>(s: seq<T>, key: T -> int)
    ensures Sorted(Sort(s, key), key)
    ensures multiset(Sort(s, key)) == multiset(s)
    ensures SameOrderWithinKeys(s, Sort(s, key), key)
  {
    SortSorted(s, key);
    SortIsPermutation(s, key);
    forall k ensures Filter(s, HasKey(key, k)) == Filter(Sort(s, key), HasKey(key, k)) {
      SortKeepsKeyClass(s, key, k);
    }
  }

  lemma {:induction false} LastKeyBounds<T(!new)>(a: seq<T>, b: seq<T>, key: T -> int)
    requires a != [] && Sorted(b, key) && SameOrderWithinKeys(a, b, key)
    ensures b != [] && key(a[|a| - 1]) <= key(b[|b| - 1])
  {
    var x := a[|a| - 1];
    FilterMembers(a, HasKey(key, key(x)));
    FilterMembers(b, HasKey(key, key(x)));
    assert x in Filter(a, HasKey(key, key(x)));
    assert x in Filter(b, HasKey(key, key(x)));
    var i :| 0 <= i < |b| && b[i] == x;
  }

  /** Two stably sorted arrangements of the same input coincide. */
  lemma {:induction false} SortedStableEqual<T(!new)>(a: seq<T>, b: seq<T>, key: T -> int)
    requires Sorted(a, key) && Sorted(b, key) && SameOrderWithinKeys(a, b, key)
    ensures a == b
  {
    if a == [] {
      if b != [] { LastKeyBounds(b, a, key); }
    } else {
      LastKeyBounds(a, b, key);
      LastKeyBounds(b, a, key);
      var x, y := a[|a| - 1], b[|b| - 1];
      var p := HasKey(key, key(x));
      assert Filter(a, p)[|Filter(a, p)| - 1] == x;
      assert Filter(b, p)[|Filter(b, p)| - 1] == y;
      assert x == y;
      var a', b' := a[..|a| - 1], b[..|b| - 1];
      forall k ensures Filter(a', HasKey(key, k)) == Filter(b', HasKey(key, k)) {
        assert Filter(a, HasKey(key, k)) == Filter(b, HasKey(key, k));
        if k == key(x) {
          assert Filter(a', p) == Filter(a, p)[..|Filter(a, p)| - 1];
          assert Filter(b', p) == Filter(b, p)[..|Filter(b, p)| - 1];
        }
      }
      SortedStableEqual(a', b', key);
      assert a == a' + [x] && b == b' + [y];
    }
  }

  /** Any sort the standard allows returns exactly `Sort`. */
  lemma {:induction false} StableSortIsUnique<T(!new)>(s: seq<T>, r: seq<T>, key: T -> int)
    requires Sorted(r, key) && SameOrderWithinKeys(s, r, key)
    ensures r == Sort(s, key)
  {
    SortMeetsStandard(s, key);
    SortedStableEqual(r, Sort(s, key), key);
  }

  /** A sequence that is already in order is left alone. */
  lemma {:induction false} SortOfSorted<T(!new)>(s: seq<T>, key: T -> int)
    requires Sorted(s, key)
    ensures Sort(s, key) == s
  {
    StableSortIsUnique(s, s, key);
  }

  lemma {:induction false} SortOfTwo<T(!new)>(a: T, b: T, key: T -> int)
    ensures Sort([a] + [b], key) == if key(a) <= key(b) then [a] + [b] else [b] + [a]
  {
    assert ([a] + [b])[..1] == [a] && [a][..0] == [];
    assert Sort([], key) == [] && Insert([], a, key) == [a];
    assert Insert([], b, key) == [b];
  }

  /** Selecting before sorting or after it gives the same result. */
  lemma {:induction false} FilterOfSort<T(!new)>(s: seq<T>, p: T -> bool, key: T -> int)
    ensures Filter(Sort(s, key), p) == Sort(Filter(s, p), key)
  {
    SortMeetsStandard(s, key);
    FilterKeepsSorted(Sort(s, key), p, key);
    forall k ensures Filter(Filter(s, p), HasKey(key, k)) == Filter(Filter(Sort(s, key), p), HasKey(key, k)) {
      FilterCommutes(s, p, HasKey(key, k));
      FilterCommutes(Sort(s, key), p, HasKey(key, k));
      assert Filter(s, HasKey(key, k)) == Filter(Sort(s, key), HasKey(key, k));
    }
    StableSortIsUnique(Filter(s, p), Filter(Sort(s, key), p), key);
  }

  /** Sorting a prefix first does not change a stable sort of the whole. */
  lemma {:induction false} SortPrefixFirst<T(!new)>(a: seq<T>, b: seq<T>, key: T -> int)
    ensures Sort(Sort(a, key) + b, key) == Sort(a + b, key)
  {
    SortMeetsStandard(a, key);
    SortMeetsStandard(Sort(a, key) + b, key);
    forall k ensures Filter(a + b, HasKey(key, k)) == Filter(Sort(Sort(a, key) + b, key), HasKey(key, k)) {
      assert Filter(Sort(a, key) + b, HasKey(key, k)) == Filter(Sort(Sort(a, key) + b, key), HasKey(key, k));
      assert Filter(a, HasKey(key, k)) == Filter(Sort(a, key), HasKey(key, k));
      FilterConcat(a, b, HasKey(key, k));
      FilterConcat(Sort(a, key), b, HasKey(key, k));
    }
    StableSortIsUnique(a + b, Sort(Sort(a, key) + b, key), key);
  }
}
