/**
 Merging again: what a second bake does to a track that was baked before. The
 controllers of the first bake are stripped by the second one, so bakes replace
 each other instead of piling up.
 */
module Rebake {
  import opened Midi
  import opened StableSort
  import opened TrackMerge

  predicate IsEot(e: Timed) { e.body == EndOfTrack }

  ghost predicate AtMostOneEot(s: seq<Timed>) {
    forall i, j :: 0 <= i < j < |s| ==> !(IsEot(s[i]) && IsEot(s[j]))
  }

  /** What remains of the track itself: neither dropped nor on an owned pair. */
  function Base(track: Track, drop: set<int>, owned: set<Pair>): seq<Timed> {
    Filter(Without(Absolute(track), drop), NotOwned(owned))
  }

  lemma {:induction false} NoEotBeforeLast(s: seq<Timed>, part: seq<Timed>)
    requires s != [] && AtMostOneEot(s) && IsEot(s[|s| - 1])
    requires forall e :: e in part ==> e in s[..|s| - 1]
    ensures forall i :: 0 <= i < |part| ==> !IsEot(part[i])
  {
    forall i | 0 <= i < |part| ensures !IsEot(part[i]) {
      assert part[i] in part;
      var j :| 0 <= j < |s| - 1 && s[j] == part[i];
    }
  }

  lemma {:induction false} LoneAfterFilter(s: seq<Timed>, p: Timed -> bool)
    requires AtMostOneEot(s)
    ensures AtMostOneEot(Filter(s, p))
  {
    if s != [] {
      var init, last := s[..|s| - 1], s[|s| - 1];
      LoneAfterFilter(init, p);
      FilterMembers(init, p);
      if IsEot(last) { NoEotBeforeLast(s, Filter(init, p)); }
    }
  }

  lemma {:induction false} LoneAfterWithout(s: seq<Timed>, drop: set<int>)
    requires AtMostOneEot(s)
    ensures AtMostOneEot(Without(s, drop))
  {
    if s != [] {
      var init, last := s[..|s| - 1], s[|s| - 1];
      LoneAfterWithout(init, drop);
      WithoutIsSubset(init, drop);
      if IsEot(last) { NoEotBeforeLast(s, Without(init, drop)); }
    }
  }

  /** A track with one end-of-track has at most one left after dropping and stripping. */
  lemma {:induction false} BaseKeepsLone(track: Track, drop: set<int>, owned: set<Pair>)
    requires AtMostOneEot(Absolute(track))
    ensures AtMostOneEot(Base(track, drop, owned))
  {
    LoneAfterWithout(Absolute(track), drop);
    LoneAfterFilter(Without(Absolute(track), drop), NotOwned(owned));
  }

  lemma {:induction false} MaxTickConcat(a: seq<Timed>, b: seq<Timed>)
    ensures MaxTick(a + b) == if MaxTick(a) >= MaxTick(b) then MaxTick(a) else MaxTick(b)
  {
    if b == [] {
      assert a + b == a;
    } else {
      assert (a + b)[..|a + b| - 1] == a + b[..|b| - 1];
      MaxTickConcat(a, b[..|b| - 1]);
    }
  }

  /** `MaxTick` is the least bound of 0 and the ticks. */
  lemma {:induction false} MaxTickIsLeast(s: seq<Timed>, m: int)
    requires m >= 0 && forall i :: 0 <= i < |s| ==> s[i].tick <= m
    ensures MaxTick(s) <= m
  {
    if s != [] { MaxTickIsLeast(s[..|s| - 1], m); }
  }

  lemma {:induction false} MaxTickBounds(s: seq<Timed>)
    ensures forall i :: 0 <= i < |s| ==> s[i].tick <= MaxTick(s)
  {
    forall i | 0 <= i < |s| ensures s[i].tick <= MaxTick(s) { assert s[i] in s; }
  }

  lemma {:induction false} MaxTickSameMembers(a: seq<Timed>, b: seq<Timed>)
    requires forall x :: x in a <==> x in b
    ensures MaxTick(a) == MaxTick(b)
  {
    MaxTickBounds(a);
    MaxTickBounds(b);
    forall i | 0 <= i < |a| ensures a[i].tick <= MaxTick(b) { assert a[i] in b; }
    forall i | 0 <= i < |b| ensures b[i].tick <= MaxTick(a) { assert b[i] in a; }
    MaxTickIsLeast(a, MaxTick(b));
    MaxTickIsLeast(b, MaxTick(a));
  }

  lemma {:induction false} FirstEotConcat(a: seq<Timed>, b: seq<Timed>)
    requires forall i :: 0 <= i < |b| ==> !IsEot(b[i])
    ensures FirstEot(a + b) == if FirstEot(a) < |a| then FirstEot(a) else |a + b|
  {
    if b == [] {
      assert a + b == a;
    } else {
      assert (a + b)[..|a + b| - 1] == a + b[..|b| - 1];
      FirstEotConcat(a, b[..|b| - 1]);
    }
  }

  /** Moving end-of-track to tick `m`. */
  function EotAt(s: seq<Timed>, m: int): (r: seq<Timed>)
    ensures |r| == |s|
  {
    var i := FirstEot(s);
    if i < |s| then s[i := Timed(m, EndOfTrack)] else s
  }

  lemma {:induction false} MoveEotOfConcat(a: seq<Timed>, b: seq<Timed>)
    requires forall i :: 0 <= i < |b| ==> !IsEot(b[i])
    ensures MoveEot(a + b) == EotAt(a, MaxTick(a + b)) + b
  {
    FirstEotConcat(a, b);
  }

  lemma {:induction false} InjectedHasNoEot(ccs: seq<CcEvent>)
    ensures forall i :: 0 <= i < |Injected(ccs)| ==> !IsEot(Injected(ccs)[i])
  {
    if ccs != [] { InjectedHasNoEot(ccs[..|ccs| - 1]); }
  }

  lemma {:induction false} StripExpanded(track: Track, ccs: seq<CcEvent>, drop: set<int>, m: int)
    ensures var owned := OwnedPairs(ccs);
      Filter(EotAt(Base(track, drop, owned), m) + Injected(ccs), NotOwned(owned)) == EotAt(Base(track, drop, owned), m)
  {
    var owned := OwnedPairs(ccs);
    var base, added := Base(track, drop, owned), Injected(ccs);
    var moved := EotAt(base, m);
    FilterConcat(moved, added, NotOwned(owned));
    InjectedAreOwned(ccs, owned);
    FilterNone(added, NotOwned(owned));
    FilterMembers(Without(Absolute(track), drop), NotOwned(owned));
    forall e | e in moved ensures NotOwned(owned)(e) { assert e in base || IsEot(e); }
    FilterAll(moved, NotOwned(owned));
  }

  /** Stripping the owned controllers from a merged track leaves the sorted base, end-of-track moved. */
  lemma {:induction false} BaseOfMerged(track: Track, ccs: seq<CcEvent>, drop: set<int>)
    ensures Base(Merge(track, ccs, drop), {}, OwnedPairs(ccs))
         == Sort(EotAt(Base(track, drop, OwnedPairs(ccs)), MaxTick(Expanded(track, ccs, drop))), SortKey)
  {
    var owned, m := OwnedPairs(ccs), MaxTick(Expanded(track, ccs, drop));
    MergedIsAbsolute(track, ccs, drop);
    WithoutNothing(Merged(track, ccs, drop));
    InjectedHasNoEot(ccs);
    MoveEotOfConcat(Base(track, drop, owned), Injected(ccs));
    FilterOfSort(EotAt(Base(track, drop, owned), m) + Injected(ccs), NotOwned(owned), SortKey);
    StripExpanded(track, ccs, drop, m);
  }

  lemma {:induction false} EotAtMembers(s: seq<Timed>, m: int)
    requires FirstEot(s) < |s|
    ensures Timed(m, EndOfTrack) in EotAt(s, m)
    ensures forall e :: e in EotAt(s, m) ==> e in s || e == Timed(m, EndOfTrack)
  {
    assert EotAt(s, m)[FirstEot(s)] == Timed(m, EndOfTrack);
  }

  lemma {:induction false} MaxTickOfEotAt(s: seq<Timed>, m: int)
    requires MaxTick(s) <= m
    ensures MaxTick(EotAt(s, m)) == if FirstEot(s) < |s| then m else MaxTick(s)
  {
    if FirstEot(s) < |s| {
      MaxTickBounds(s);
      EotAtMembers(s, m);
      forall i | 0 <= i < |s| ensures EotAt(s, m)[i].tick <= m { }
      MaxTickIsLeast(EotAt(s, m), m);
      MaxTickBounds(EotAt(s, m));
      assert EotAt(s, m)[FirstEot(s)].tick == m;
    }
  }

  /** Moving a lone end-of-track in a sorted list gives the same as moving it before sorting, up to sorting. */
  lemma {:induction false} EotOfSorted(s: seq<Timed>, m: int)
    requires AtMostOneEot(s)
    requires FirstEot(s) < |s| ==> s[FirstEot(s)] == Timed(m, EndOfTrack)
    ensures EotAt(Sort(s, SortKey), m) == Sort(s, SortKey)
  {
    var r := Sort(s, SortKey);
    SortIsPermutation(s, SortKey);
    var i := FirstEot(r);
    if i < |r| {
      assert r[i] in s;
      var j :| 0 <= j < |s| && s[j] == r[i];
      assert IsEot(s[j]);
      assert j == FirstEot(s);
    }
  }

  lemma {:induction false} EotAtKeepsLone(s: seq<Timed>, m: int)
    requires AtMostOneEot(s)
    ensures AtMostOneEot(EotAt(s, m))
    ensures FirstEot(EotAt(s, m)) == FirstEot(s)
  {
    if FirstEot(s) < |s| { assert EotAt(s, m)[FirstEot(s)] == Timed(m, EndOfTrack); }
  }

  /**
   Re-baking does not stack: merging the same controller list into the merged
   track again returns the merged track itself.
   */
  lemma {:induction false} MergeTwiceIsMergeOnce(track: Track, ccs: seq<CcEvent>, drop: set<int>)
    requires AtMostOneEot(Base(track, drop, OwnedPairs(ccs)))
    ensures Merge(Merge(track, ccs, drop), ccs, {}) == Merge(track, ccs, drop)
  {
    var owned := OwnedPairs(ccs);
    var base, added, x := Base(track, drop, owned), Injected(ccs), Expanded(track, ccs, drop);
    var m := MaxTick(x);
    var moved := EotAt(base, m);
    BaseOfMerged(track, ccs, drop);
    InjectedHasNoEot(ccs);
    MoveEotOfConcat(base, added);
    MoveEotOfConcat(Sort(moved, SortKey), added);
    MaxTickConcat(base, added);
    MaxTickOfEotAt(base, m);
    SortIsPermutation(moved, SortKey);
    MaxTickSameMembers(Sort(moved, SortKey), moved);
    MaxTickConcat(Sort(moved, SortKey), added);
    EotAtKeepsLone(base, m);
    EotOfSorted(moved, m);
    assert MaxTick(Sort(moved, SortKey) + added) == m;
    SortPrefixFirst(moved, added, SortKey);
  }

  lemma {:induction false} MergedWithoutEot(track: Track, ccs: seq<CcEvent>, drop: set<int>)
    ensures Filter(Absolute(Merge(track, ccs, drop)), NotEot)
         == Sort(Filter(Base(track, drop, OwnedPairs(ccs)), NotEot) + Injected(ccs), SortKey)
  {
    var base, added, x := Base(track, drop, OwnedPairs(ccs)), Injected(ccs), Expanded(track, ccs, drop);
    MergedIsAbsolute(track, ccs, drop);
    FilterOfSort(MoveEot(x), NotEot, SortKey);
    MoveEotKeepsOthers(x);
    FilterConcat(base, added, NotEot);
    InjectedHasNoEot(ccs);
    FilterAll(added, NotEot);
  }

  /** The controllers of `a` on pairs outside `owned`. */
  function Unowned(a: seq<CcEvent>, owned: set<Pair>): (r: seq<CcEvent>)
    ensures forall cc :: cc in r <==> cc in a && Pair(cc.channel, cc.controllerType) !in owned
  {
    if a == [] then [] else
      var last := a[|a| - 1];
      Unowned(a[..|a| - 1], owned) + if Pair(last.channel, last.controllerType) in owned then [] else [last]
  }

  lemma {:induction false} InjectedConcat(a: seq<CcEvent>, b: seq<CcEvent>)
    ensures Injected(a + b) == Injected(a) + Injected(b)
  {
    if b == [] {
      assert a + b == a;
    } else {
      assert (a + b)[..|a + b| - 1] == a + b[..|b| - 1];
      InjectedConcat(a, b[..|b| - 1]);
    }
  }

  lemma {:induction false} InjectedUnowned(a: seq<CcEvent>, owned: set<Pair>)
    ensures Filter(Injected(a), NotOwned(owned)) == Injected(Unowned(a, owned))
  {
    if a != [] {
      var init, last := a[..|a| - 1], a[|a| - 1];
      var e := Timed(last.absTick, CcBody(last));
      assert a == init + [last];
      InjectedUnowned(init, owned);
      UnownedStep(init, last, owned, e);
    }
  }

  lemma {:induction false} UnownedStep(init: seq<CcEvent>, last: CcEvent, owned: set<Pair>, e: Timed)
    requires e == Timed(last.absTick, CcBody(last))
    requires Filter(Injected(init), NotOwned(owned)) == Injected(Unowned(init, owned))
    ensures Filter(Injected(init + [last]), NotOwned(owned)) == Injected(Unowned(init + [last], owned))
  {
    InjectedSnoc(init, last);
    UnownedSnoc(init, last, owned);
    FilterSnoc(Injected(init), e, NotOwned(owned));
    InjectedSnoc(Unowned(init, owned), last);
    assert NotOwned(owned)(e) <==> Pair(last.channel, last.controllerType) !in owned;
    hide Filter, Injected, Unowned;
  }

  lemma {:induction false} FilterSnoc(s: seq<Timed>, e: Timed, p: Timed -> bool)
    ensures Filter(s + [e], p) == if p(e) then Filter(s, p) + [e] else Filter(s, p)
  {
    assert (s + [e])[..|s|] == s;
  }

  lemma {:induction false} InjectedSnoc(s: seq<CcEvent>, cc: CcEvent)
    ensures Injected(s + [cc]) == Injected(s) + [Timed(cc.absTick, CcBody(cc))]
  {
    assert (s + [cc])[..|s|] == s;
  }

  lemma {:induction false} UnownedSnoc(s: seq<CcEvent>, cc: CcEvent, owned: set<Pair>)
    ensures Unowned(s + [cc], owned) == if Pair(cc.channel, cc.controllerType) in owned then Unowned(s, owned) else Unowned(s, owned) + [cc]
  {
    assert (s + [cc])[..|s|] == s;
  }

  lemma {:induction false} FilterTwice(s: seq<Timed>, p: Timed -> bool, q: Timed -> bool, both: Timed -> bool)
    requires forall e :: both(e) <==> p(e) && q(e)
    ensures Filter(Filter(s, p), q) == Filter(s, both)
  {
    if s != [] {
      var init, last := s[..|s| - 1], s[|s| - 1];
      FilterTwice(init, p, q, both);
      FilterSnoc(Filter(init, p), last, q);
    }
  }

  lemma {:induction false} OwnedByBoth(a: seq<CcEvent>, b: seq<CcEvent>)
    ensures OwnedPairs(Unowned(a, OwnedPairs(b)) + b) == OwnedPairs(a) + OwnedPairs(b)
  {
    var rest, oa, ob := Unowned(a, OwnedPairs(b)), OwnedPairs(a), OwnedPairs(b);
    var both := rest + b;
    forall cc | cc in a ensures Pair(cc.channel, cc.controllerType) in OwnedPairs(both) {
      if Pair(cc.channel, cc.controllerType) in ob {
        var d :| d in b && Pair(d.channel, d.controllerType) == Pair(cc.channel, cc.controllerType);
        assert d in both;
      } else {
        assert cc in both;
      }
    }
    forall cc | cc in b ensures Pair(cc.channel, cc.controllerType) in OwnedPairs(both) { assert cc in both; }
    assert OwnedPairs(both) <= oa + ob;
  }

  /** What the second merge finds of the track and of the first list. */
  lemma {:induction false} BaseOfSecond(track: Track, a: seq<CcEvent>, b: seq<CcEvent>, drop: set<int>)
    ensures Filter(Base(Merge(track, a, drop), {}, OwnedPairs(b)), NotEot)
         == Sort(Filter(Base(track, drop, OwnedPairs(a) + OwnedPairs(b)), NotEot) + Injected(Unowned(a, OwnedPairs(b))), SortKey)
  {
    var oa, ob, m := OwnedPairs(a), OwnedPairs(b), Merged(track, a, drop);
    var w := Without(Absolute(track), drop);
    MergedIsAbsolute(track, a, drop);
    WithoutNothing(m);
    FilterCommutes(m, NotOwned(ob), NotEot);
    MergedWithoutEot(track, a, drop);
    var kept := Filter(Base(track, drop, oa), NotEot);
    FilterOfSort(kept + Injected(a), NotOwned(ob), SortKey);
    FilterConcat(kept, Injected(a), NotOwned(ob));
    InjectedUnowned(a, ob);
    FilterCommutes(Base(track, drop, oa), NotEot, NotOwned(ob));
    FilterTwice(w, NotOwned(oa), NotOwned(ob), NotOwned(oa + ob));
  }

  /**
   Two bakes in a row, on any pairs: merging list A and then list B gives what one
   merge of both gives, less A's controllers on the pairs that B owns; end-of-track
   aside. So A's controllers on the other pairs stay behind.
   */
  lemma {:induction false} LaterMergeCombines(track: Track, a: seq<CcEvent>, b: seq<CcEvent>, drop: set<int>)
    ensures Filter(Absolute(Merge(Merge(track, a, drop), b, {})), NotEot)
         == Filter(Absolute(Merge(track, Unowned(a, OwnedPairs(b)) + b, drop)), NotEot)
  {
    var rest := Unowned(a, OwnedPairs(b));
    MergedWithoutEot(Merge(track, a, drop), b, {});
    MergedWithoutEot(track, rest + b, drop);
    BaseOfSecond(track, a, b, drop);
    OwnedByBoth(a, b);
    InjectedConcat(rest, b);
    var kept := Filter(Base(track, drop, OwnedPairs(a) + OwnedPairs(b)), NotEot);
    hide *;
    SortPrefixFirst(kept + Injected(rest), Injected(b), SortKey);
    Regroup(kept, Injected(rest), Injected(b));
  }

  lemma {:induction false} Regroup(a: seq<Timed>, b: seq<Timed>, c: seq<Timed>)
    ensures a + b + c == a + (b + c)
  {
  }

  /**
   A later bake replaces an earlier one when it owns all its pairs: merging list A
   and then list B gives what merging B alone gives, except for the time of
   end-of-track, which remembers the later of the two.
   */
  lemma {:induction false} LaterMergeReplaces(track: Track, a: seq<CcEvent>, b: seq<CcEvent>, drop: set<int>)
    requires OwnedPairs(a) <= OwnedPairs(b)
    ensures Filter(Absolute(Merge(Merge(track, a, drop), b, {})), NotEot)
         == Filter(Absolute(Merge(track, b, drop)), NotEot)
  {
    LaterMergeCombines(track, a, b, drop);
    NothingUnowned(a, OwnedPairs(b));
    assert [] + b == b;
  }

  lemma {:induction false} NothingUnowned(a: seq<CcEvent>, owned: set<Pair>)
    requires OwnedPairs(a) <= owned
    ensures Unowned(a, owned) == []
  {
    if a != [] {
      assert a[|a| - 1] in a;
      assert OwnedPairs(a[..|a| - 1]) <= OwnedPairs(a);
      NothingUnowned(a[..|a| - 1], owned);
    }
  }

  /** A latest event that a selection keeps. */
  lemma {:induction false} LatestIsKept(s: seq<Timed>, p: Timed -> bool, end: Timed)
    requires end in s && p(end) && end.tick == MaxTick(s)
    ensures MaxTick(Filter(s, p)) == MaxTick(s)
  {
    FilterMembers(s, p);
    var left := Filter(s, p);
    MaxTickBounds(s);
    MaxTickBounds(left);
    forall i | 0 <= i < |left| ensures left[i].tick <= MaxTick(s) { assert left[i] in s; }
    MaxTickIsLeast(left, MaxTick(s));
    assert end in left;
  }

  /** End-of-track stands at the end of the merged track. */
  lemma {:induction false} EndInMerged(track: Track, a: seq<CcEvent>, drop: set<int>)
    requires FirstEot(Base(track, drop, OwnedPairs(a))) < |Base(track, drop, OwnedPairs(a))|
    ensures Timed(MaxTick(Expanded(track, a, drop)), EndOfTrack) in Merged(track, a, drop)
  {
    var x := Expanded(track, a, drop);
    InjectedHasNoEot(a);
    FirstEotConcat(Base(track, drop, OwnedPairs(a)), Injected(a));
    EotAtMembers(x, MaxTick(x));
    SortIsPermutation(MoveEot(x), SortKey);
  }

  /** End-of-track survives stripping, at the end of the first merge; nothing else is later. */
  lemma {:induction false} SecondKeepsEnd(track: Track, a: seq<CcEvent>, b: seq<CcEvent>, drop: set<int>)
    requires FirstEot(Base(track, drop, OwnedPairs(a))) < |Base(track, drop, OwnedPairs(a))|
    ensures MaxTick(Base(Merge(track, a, drop), {}, OwnedPairs(b))) == MaxTick(Absolute(Merge(track, a, drop)))
  {
    var m, end := Merged(track, a, drop), Timed(MaxTick(Expanded(track, a, drop)), EndOfTrack);
    MergedIsAbsolute(track, a, drop);
    MergedMaxTick(track, a, drop);
    WithoutNothing(m);
    EndInMerged(track, a, drop);
    assert NotOwned(OwnedPairs(b))(end);
    hide Merged, Expanded, MaxTick, Filter, Without;
    LatestIsKept(m, NotOwned(OwnedPairs(b)), end);
  }

  lemma {:induction false} SmallerBase(track: Track, drop: set<int>, few: set<Pair>, many: set<Pair>)
    requires few <= many
    ensures MaxTick(Base(track, drop, many)) <= MaxTick(Base(track, drop, few))
    ensures FirstEot(Base(track, drop, many)) < |Base(track, drop, many)| ==> FirstEot(Base(track, drop, few)) < |Base(track, drop, few)|
  {
    var w := Without(Absolute(track), drop);
    FilterMembers(w, NotOwned(few));
    FilterMembers(w, NotOwned(many));
    var s, l := Base(track, drop, many), Base(track, drop, few);
    assert forall e :: e in s ==> e in l;
    MaxTickBounds(l);
    forall i | 0 <= i < |s| ensures s[i].tick <= MaxTick(l) { assert s[i] in l; }
    MaxTickIsLeast(s, MaxTick(l));
    if FirstEot(s) < |s| {
      assert s[FirstEot(s)] in s;
      var j :| 0 <= j < |l| && l[j] == s[FirstEot(s)];
    }
  }

  /** The one place the two differ: end-of-track sits at the later of both bakes. */
  lemma {:induction false} LaterMergeEotTick(track: Track, a: seq<CcEvent>, b: seq<CcEvent>, drop: set<int>)
    requires OwnedPairs(a) <= OwnedPairs(b)
    requires FirstEot(Base(track, drop, OwnedPairs(b))) < |Base(track, drop, OwnedPairs(b))|
    ensures var once, twice := MaxTick(Absolute(Merge(track, b, drop))), MaxTick(Absolute(Merge(Merge(track, a, drop), b, {})));
      var first := MaxTick(Absolute(Merge(track, a, drop)));
      twice == if first >= once then first else once
  {
    SmallerBase(track, drop, OwnedPairs(a), OwnedPairs(b));
    SecondKeepsEnd(track, a, b, drop);
    MergedMaxTick(track, a, drop);
    MergedMaxTick(track, b, drop);
    MergedMaxTick(Merge(track, a, drop), b, {});
    hide MaxTick, Merge, Absolute, FirstEot;
    MaxTickConcat(Base(track, drop, OwnedPairs(a)), Injected(a));
    MaxTickConcat(Base(track, drop, OwnedPairs(b)), Injected(b));
    MaxTickConcat(Base(Merge(track, a, drop), {}, OwnedPairs(b)), Injected(b));
  }

  /** No event of a merged track is later than the latest of its inputs. */
  lemma {:induction false} MergedMaxTick(track: Track, ccs: seq<CcEvent>, drop: set<int>)
    ensures MaxTick(Absolute(Merge(track, ccs, drop))) == MaxTick(Expanded(track, ccs, drop))
  {
    var x := Expanded(track, ccs, drop);
    MergedIsAbsolute(track, ccs, drop);
    SortIsPermutation(MoveEot(x), SortKey);
    MaxTickSameMembers(Sort(MoveEot(x), SortKey), MoveEot(x));
    MaxTickOfEotAt(x, MaxTick(x));
  }

  lemma {:induction false} MovedEot(track: Track, ccs: seq<CcEvent>, drop: set<int>)
    requires AtMostOneEot(Base(track, drop, OwnedPairs(ccs)))
    requires FirstEot(Base(track, drop, OwnedPairs(ccs))) < |Base(track, drop, OwnedPairs(ccs))|
    ensures var x := Expanded(track, ccs, drop);
      AtMostOneEot(MoveEot(x)) && FirstEot(x) < |x| && MoveEot(x)[FirstEot(x)] == Timed(MaxTick(x), EndOfTrack)
  {
    var base, x := Base(track, drop, OwnedPairs(ccs)), Expanded(track, ccs, drop);
    InjectedHasNoEot(ccs);
    MoveEotOfConcat(base, Injected(ccs));
    EotAtKeepsLone(base, MaxTick(x));
    FirstEotConcat(base, Injected(ccs));
  }

  /** A lone end-of-track ends up strictly last, at the greatest tick. */
  lemma {:induction false} EotIsLast(track: Track, ccs: seq<CcEvent>, drop: set<int>)
    requires AtMostOneEot(Base(track, drop, OwnedPairs(ccs)))
    requires FirstEot(Base(track, drop, OwnedPairs(ccs))) < |Base(track, drop, OwnedPairs(ccs))|
    ensures var r := Absolute(Merge(track, ccs, drop));
      r != [] && r[|r| - 1] == Timed(MaxTick(Expanded(track, ccs, drop)), EndOfTrack)
      && forall i :: 0 <= i < |r| - 1 ==> !IsEot(r[i]) && r[i].tick <= r[|r| - 1].tick
  {
    var x := Expanded(track, ccs, drop);
    MergedIsAbsolute(track, ccs, drop);
    MovedEot(track, ccs, drop);
    MaxTickBounds(x);
    LoneEotSortsLast(MoveEot(x), FirstEot(x));
  }

  lemma {:induction false} LoneEotSortsLast(y: seq<Timed>, k: nat)
    requires AtMostOneEot(y) && k < |y| && IsEot(y[k])
    requires forall i :: 0 <= i < |y| ==> y[i].tick <= y[k].tick
    ensures var r := Sort(y, SortKey);
      r != [] && r[|r| - 1] == y[k] && forall i :: 0 <= i < |r| - 1 ==> !IsEot(r[i]) && r[i].tick <= r[|r| - 1].tick
  {
    var r := Sort(y, SortKey);
    LoneEotBound(y, k);
    assert y[k] in r;
    var p :| 0 <= p < |r| && r[p] == y[k];
    SortSorted(y, SortKey);
    GreatestIsLast(r, p);
    SortKeepsLone(y, k);
    forall i | 0 <= i < |r| - 1 ensures !IsEot(r[i]) {
      if IsEot(r[i]) { TwoInFilter(r, i); }
    }
  }

  lemma {:induction false} SortKeepsLone(y: seq<Timed>, k: nat)
    requires AtMostOneEot(y) && k < |y| && IsEot(y[k])
    ensures |Filter(Sort(y, SortKey), IsEot)| == 1
  {
    FilterOfSort(y, IsEot, SortKey);
    LoneFilter(y, k);
    SortOfSorted([y[k]], SortKey);
  }

  lemma {:induction false} LoneEotBound(y: seq<Timed>, k: nat)
    requires AtMostOneEot(y) && k < |y| && IsEot(y[k])
    requires forall i :: 0 <= i < |y| ==> y[i].tick <= y[k].tick
    ensures y[k] in Sort(y, SortKey)
    ensures var r := Sort(y, SortKey);
      forall i :: 0 <= i < |r| ==> r[i].tick <= y[k].tick && (IsEot(r[i]) ==> r[i] == y[k])
  {
    var r := Sort(y, SortKey);
    SortIsPermutation(y, SortKey);
    forall i | 0 <= i < |r| ensures r[i].tick <= y[k].tick && (IsEot(r[i]) ==> r[i] == y[k]) {
      assert r[i] in y;
    }
  }

  lemma {:induction false} GreatestIsLast(r: seq<Timed>, p: nat)
    requires Sorted(r, SortKey) && p < |r| && IsEot(r[p])
    requires forall i :: 0 <= i < |r| ==> r[i].tick <= r[p].tick && (IsEot(r[i]) ==> r[i] == r[p])
    ensures r[|r| - 1] == r[p]
  {
    assert SortKey(r[p]) <= SortKey(r[|r| - 1]);
  }

  lemma {:induction false} LoneFilter(y: seq<Timed>, k: nat)
    requires AtMostOneEot(y) && k < |y| && IsEot(y[k])
    ensures Filter(y, IsEot) == [y[k]]
  {
    assert y == y[..k] + [y[k]] + y[k + 1..];
    FilterConcat(y[..k], [y[k]], IsEot);
    FilterConcat(y[..k] + [y[k]], y[k + 1..], IsEot);
    FilterNone(y[..k], IsEot);
    FilterNone(y[k + 1..], IsEot);
  }

  lemma {:induction false} TwoInFilter(r: seq<Timed>, i: nat)
    requires i < |r| - 1 && IsEot(r[i]) && IsEot(r[|r| - 1])
    ensures |Filter(r, IsEot)| >= 2
  {
    FilterMembers(r[..|r| - 1], IsEot);
    assert r[i] in r[..|r| - 1];
  }
}
