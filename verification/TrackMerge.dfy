/**
 Merging baked controller events into a track: previous controllers on the same
 (channel, controller) pairs are stripped, the new ones appended, end-of-track is
 pushed behind everything, the whole is sorted by tick (controllers before notes)
 and turned back into delta times.
 */
module TrackMerge {
  import opened Midi
  import opened StableSort

  datatype CcEvent = CcEvent(absTick: int, channel: int, controllerType: int, value: int)
  datatype Pair = Pair(channel: int, controllerType: int)

  // ---- the sort order ----

  function TypeRank(b: Body): int {
    match b
    case Controller(_, _, _) => 0
    case NoteOn(_, _, _) => 1
    case NoteOff(_, _, _) => 1
    case EndOfTrack => 3
    case _ => 2
  }

  /** The comparator handed to the sort. */
  function Compare(a: Timed, b: Timed): int {
    if a.tick != b.tick then a.tick - b.tick else TypeRank(a.body) - TypeRank(b.body)
  }

  function SortKey(e: Timed): int { 4 * e.tick + TypeRank(e.body) }

  /** The comparator is the order of one integer key, so it is a consistent comparator. */
  lemma {:induction false} CompareIsKeyOrder(a: Timed, b: Timed)
    ensures Compare(a, b) < 0 <==> SortKey(a) < SortKey(b)
    ensures Compare(a, b) == 0 <==> SortKey(a) == SortKey(b)
  {
  }

  // ---- the expanded event list ----

  predicate Stripped(owned: set<Pair>, b: Body) {
    b.Controller? && Pair(b.channel, b.controllerType) in owned
  }

  function NotOwned(owned: set<Pair>): Timed -> bool { (e: Timed) => !Stripped(owned, e.body) }

  predicate NotEot(e: Timed) { e.body != EndOfTrack }

  function OwnedPairs(ccs: seq<CcEvent>): set<Pair> {
    set cc | cc in ccs :: Pair(cc.channel, cc.controllerType)
  }

  /** `s` without the events at the indices in `drop`. */
  function Without(s: seq<Timed>, drop: set<int>): seq<Timed> {
    if s == [] then [] else
      var rest := Without(s[..|s| - 1], drop);
      if |s| - 1 in drop then rest else rest + [s[|s| - 1]]
  }

  function CcBody(cc: CcEvent): Body { Controller(cc.channel, cc.controllerType, cc.value) }

  function Injected(ccs: seq<CcEvent>): (r: seq<Timed>)
    ensures |r| == |ccs|
  {
    if ccs == [] then []
    else Injected(ccs[..|ccs| - 1]) + [Timed(ccs[|ccs| - 1].absTick, CcBody(ccs[|ccs| - 1]))]
  }

  function Expanded(track: Track, ccs: seq<CcEvent>, drop: set<int>): seq<Timed> {
    Filter(Without(Absolute(track), drop), NotOwned(OwnedPairs(ccs))) + Injected(ccs)
  }

  function MaxTick(s: seq<Timed>): (m: int)
    ensures m >= 0
    ensures forall e :: e in s ==> e.tick <= m
  {
    if s == [] then 0 else
      var m := MaxTick(s[..|s| - 1]);
      if s[|s| - 1].tick > m then s[|s| - 1].tick else m
  }

  /** Index of the first end-of-track, or the length when there is none. */
  function FirstEot(s: seq<Timed>): (r: nat)
    ensures r <= |s|
    ensures r < |s| ==> s[r].body == EndOfTrack
    ensures forall j :: 0 <= j < r ==> s[j].body != EndOfTrack
  {
    if s == [] then 0
    else
      var r := FirstEot(s[..|s| - 1]);
      if r < |s| - 1 || s[|s| - 1].body == EndOfTrack then r else |s|
  }

  function MoveEot(s: seq<Timed>): (r: seq<Timed>)
    ensures |r| == |s|
  {
    var i := FirstEot(s);
    if i < |s| then s[i := Timed(MaxTick(s), EndOfTrack)] else s
  }

  function Merged(track: Track, ccs: seq<CcEvent>, drop: set<int>): seq<Timed> {
    Sort(MoveEot(Expanded(track, ccs, drop)), SortKey)
  }

  function Merge(track: Track, ccs: seq<CcEvent>, drop: set<int>): Track {
    Relative(Merged(track, ccs, drop))
  }

  lemma {:induction false} KeptSnoc(s: seq<Timed>, e: Timed, drop: set<int>, owned: set<Pair>)
    ensures Filter(Without(s + [e], drop), NotOwned(owned)) == Filter(Without(s, drop), NotOwned(owned))
      + if |s| in drop || Stripped(owned, e.body) then [] else [e]
  {
    assert (s + [e])[..|s|] == s;
    FilterConcat(Without(s, drop), [e], NotOwned(owned));
  }

  /** The events of the track that stay, at their absolute ticks. */
  method ExpandTrack(track: Track, drop: set<int>, owned: set<Pair>) returns (expanded: seq<Timed>)
    ensures expanded == Filter(Without(Absolute(track), drop), NotOwned(owned))
  {
    expanded := [];
    var absTick := 0;
    for i := 0 to |track|
      invariant absTick == EndTick(track[..i])
      invariant expanded == Filter(Without(Absolute(track[..i]), drop), NotOwned(owned))
    {
      absTick := absTick + track[i].delta;
      AbsoluteSnoc(track, i);
      KeptSnoc(Absolute(track[..i]), Timed(absTick, track[i].body), drop, owned);
      if i in drop { continue; }
      if Stripped(owned, track[i].body) { continue; }
      expanded := expanded + [Timed(absTick, track[i].body)];
    }
    assert track[..|track|] == track;
  }

  method RecomputeDeltas(expanded: seq<Timed>) returns (out: Track)
    ensures out == Relative(expanded)
  {
    out := [];
    var prev := 0;
    for i := 0 to |expanded|
      invariant prev == if i == 0 then 0 else expanded[i - 1].tick
      invariant out == Relative(expanded[..i])
    {
      assert expanded[..i + 1][..i] == expanded[..i];
      out := out + [Event(expanded[i].tick - prev, expanded[i].body)];
      prev := expanded[i].tick;
    }
    assert expanded[..|expanded|] == expanded;
  }

  method MergeEventsIntoTrack(track: Track, newCCEvents: seq<CcEvent>, dropIndices: set<int>) returns (out: Track)
    ensures out == Merge(track, newCCEvents, dropIndices)
  {
    var expanded := ExpandTrack(track, dropIndices, OwnedPairs(newCCEvents));
    ghost var kept := expanded;
    for i := 0 to |newCCEvents|
      invariant expanded == kept + Injected(newCCEvents[..i])
    {
      assert newCCEvents[..i + 1][..i] == newCCEvents[..i];
      expanded := expanded + [Timed(newCCEvents[i].absTick, CcBody(newCCEvents[i]))];
    }
    assert newCCEvents[..|newCCEvents|] == newCCEvents;
    var eot := FirstEot(expanded);
    if eot < |expanded| {
      expanded := expanded[eot := Timed(MaxTick(expanded), EndOfTrack)];
    }
    expanded := Sort(expanded, SortKey);
    out := RecomputeDeltas(expanded);
  }

  // ---- facts about the pieces ----

  lemma {:induction false} InjectedAreOwned(ccs: seq<CcEvent>, owned: set<Pair>)
    requires OwnedPairs(ccs) <= owned
    ensures forall e :: e in Injected(ccs) ==> Stripped(owned, e.body)
    ensures forall e :: e in Injected(ccs) ==> exists cc :: cc in ccs && e == Timed(cc.absTick, CcBody(cc))
  {
    if ccs != [] {
      var init := ccs[..|ccs| - 1];
      assert OwnedPairs(init) <= owned;
      InjectedAreOwned(init, owned);
      var last := ccs[|ccs| - 1];
      assert last in ccs;
      assert Pair(last.channel, last.controllerType) in OwnedPairs(ccs);
    }
  }

  lemma {:induction false} MoveEotKeepsOthers(s: seq<Timed>)
    ensures Filter(MoveEot(s), NotEot) == Filter(s, NotEot)
  {
    var i := FirstEot(s);
    if i < |s| {
      var moved := Timed(MaxTick(s), EndOfTrack);
      assert s == s[..i] + [s[i]] + s[i + 1..];
      assert MoveEot(s) == s[..i] + [moved] + s[i + 1..];
      FilterConcat(s[..i], [s[i]], NotEot);
      FilterConcat(s[..i], [moved], NotEot);
      FilterConcat(s[..i] + [s[i]], s[i + 1..], NotEot);
      FilterConcat(s[..i] + [moved], s[i + 1..], NotEot);
    }
  }

  /** A class of events without end-of-track is not touched by moving it. */
  lemma {:induction false} MoveEotKeepsClass(s: seq<Timed>, p: Timed -> bool)
    requires forall e :: p(e) ==> NotEot(e)
    ensures Filter(MoveEot(s), p) == Filter(s, p)
  {
    MoveEotKeepsOthers(s);
    FilterMembers(s, p);
    FilterMembers(MoveEot(s), p);
    FilterCommutes(s, NotEot, p);
    FilterCommutes(MoveEot(s), NotEot, p);
    FilterAll(Filter(s, p), NotEot);
    FilterAll(Filter(MoveEot(s), p), NotEot);
  }

  lemma {:induction false} MergedIsAbsolute(track: Track, ccs: seq<CcEvent>, drop: set<int>)
    ensures Absolute(Merge(track, ccs, drop)) == Merged(track, ccs, drop)
  {
    AbsoluteOfRelative(Merged(track, ccs, drop));
  }

  // ---- what the merge promises ----

  lemma {:induction false} MultisetConcat<T>(a: seq<T>, b: seq<T>)
    ensures multiset(a + b) == multiset(a) + multiset(b)
  {
  }

  /**
   Nothing is lost, invented or moved in time: besides end-of-track, the merged
   track holds exactly the surviving events at their old ticks and the new
   controllers at theirs.
   */
  lemma {:induction false} MergeIsPermutation(track: Track, ccs: seq<CcEvent>, drop: set<int>)
    ensures multiset(Filter(Absolute(Merge(track, ccs, drop)), NotEot))
         == multiset(Filter(Filter(Without(Absolute(track), drop), NotOwned(OwnedPairs(ccs))), NotEot)) + multiset(Injected(ccs))
    ensures |Merge(track, ccs, drop)| == |Expanded(track, ccs, drop)|
  {
    var x := Expanded(track, ccs, drop);
    var kept := Filter(Without(Absolute(track), drop), NotOwned(OwnedPairs(ccs)));
    MergedIsAbsolute(track, ccs, drop);
    FilterOfSort(MoveEot(x), NotEot, SortKey);
    SortIsPermutation(Filter(MoveEot(x), NotEot), SortKey);
    SortIsPermutation(MoveEot(x), SortKey);
    MoveEotKeepsOthers(x);
    FilterConcat(kept, Injected(ccs), NotEot);
    InjectedAreOwned(ccs, OwnedPairs(ccs));
    FilterAll(Injected(ccs), NotEot);
    MultisetConcat(Filter(kept, NotEot), Injected(ccs));
  }

  lemma {:induction false} WithoutNothing(s: seq<Timed>)
    ensures Without(s, {}) == s
  {
    if s != [] { WithoutNothing(s[..|s| - 1]); }
  }

  lemma {:induction false} WithoutIsSubset(s: seq<Timed>, drop: set<int>)
    ensures forall e :: e in Without(s, drop) ==> e in s
  {
    if s != [] { WithoutIsSubset(s[..|s| - 1], drop); }
  }

  ghost predicate TicksNonNegative(s: seq<Timed>) { forall i :: 0 <= i < |s| ==> s[i].tick >= 0 }

  lemma {:induction false} KeptTicksNonNegative(track: Track, drop: set<int>, p: Timed -> bool)
    requires NonNegativeDeltas(track)
    ensures TicksNonNegative(Filter(Without(Absolute(track), drop), p))
  {
    AbsoluteIsOrdered(track);
    WithoutIsSubset(Absolute(track), drop);
    FilterMembers(Without(Absolute(track), drop), p);
    var kept := Filter(Without(Absolute(track), drop), p);
    forall i | 0 <= i < |kept| ensures kept[i].tick >= 0 {
      assert kept[i] in Absolute(track);
    }
  }

  lemma {:induction false} InjectedTicksNonNegative(ccs: seq<CcEvent>)
    requires forall cc :: cc in ccs ==> cc.absTick >= 0
    ensures TicksNonNegative(Injected(ccs))
  {
    if ccs != [] {
      assert ccs[|ccs| - 1] in ccs;
      InjectedTicksNonNegative(ccs[..|ccs| - 1]);
    }
  }

  lemma {:induction false} ExpandedTicksNonNegative(track: Track, ccs: seq<CcEvent>, drop: set<int>)
    requires NonNegativeDeltas(track)
    requires forall cc :: cc in ccs ==> cc.absTick >= 0
    ensures TicksNonNegative(MoveEot(Expanded(track, ccs, drop)))
  {
    KeptTicksNonNegative(track, drop, NotOwned(OwnedPairs(ccs)));
    InjectedTicksNonNegative(ccs);
    assert TicksNonNegative(Expanded(track, ccs, drop));
  }

  lemma {:induction false} SortedDeltas(m: seq<Timed>, i: nat)
    requires Sorted(m, SortKey) && i < |m|
    requires TicksNonNegative(m)
    ensures Relative(m)[i].delta >= 0
    ensures EndTick(Relative(m)[..i + 1]) == m[i].tick
  {
    hide EndTick, Relative;
    RelativeDeltas(m, i);
    AbsoluteOfRelative(m);
    AbsoluteAt(Relative(m), i);
    if i > 0 { assert SortKey(m[i - 1]) <= SortKey(m[i]); }
  }

  /** Non-negative deltas in, non-negative deltas out; they sum up to the sorted ticks. */
  lemma {:induction false} MergeKeepsDeltasNonNegative(track: Track, ccs: seq<CcEvent>, drop: set<int>)
    requires NonNegativeDeltas(track)
    requires forall cc :: cc in ccs ==> cc.absTick >= 0
    ensures NonNegativeDeltas(Merge(track, ccs, drop))
    ensures forall i :: 0 <= i < |Merge(track, ccs, drop)| ==>
      EndTick(Merge(track, ccs, drop)[..i + 1]) == Merged(track, ccs, drop)[i].tick
  {
    var x, m := Expanded(track, ccs, drop), Merged(track, ccs, drop);
    ExpandedTicksNonNegative(track, ccs, drop);
    SortSorted(MoveEot(x), SortKey);
    SortIsPermutation(MoveEot(x), SortKey);
    forall i | 0 <= i < |m| ensures m[i].tick >= 0 { assert m[i] in MoveEot(x); }
    forall i | 0 <= i < |m| ensures Relative(m)[i].delta >= 0 && EndTick(Relative(m)[..i + 1]) == m[i].tick {
      SortedDeltas(m, i);
    }
  }

  lemma {:induction false} SortedPosition(m: seq<Timed>, i: nat, j: nat)
    requires Sorted(m, SortKey) && i < |m| && j < |m|
    requires SortKey(m[i]) < SortKey(m[j])
    ensures i < j
  {
  }

  predicate IsNoteKind(b: Body) { b.NoteOn? || b.NoteOff? }

  lemma {:induction false} MergedIsSorted(track: Track, ccs: seq<CcEvent>, drop: set<int>)
    ensures Sorted(Absolute(Merge(track, ccs, drop)), SortKey)
  {
    MergedIsAbsolute(track, ccs, drop);
    SortSorted(MoveEot(Expanded(track, ccs, drop)), SortKey);
  }

  /** Every controller precedes every note event of the same tick or a later one. */
  lemma {:induction false} ControllersPrecedeNotes(track: Track, ccs: seq<CcEvent>, drop: set<int>, i: nat, j: nat)
    requires i < |Absolute(Merge(track, ccs, drop))| && j < |Absolute(Merge(track, ccs, drop))|
    requires var r := Absolute(Merge(track, ccs, drop));
      r[i].body.Controller? && (r[j].body.NoteOn? || r[j].body.NoteOff?) && r[i].tick <= r[j].tick
    ensures i < j
  {
    var r := Absolute(Merge(track, ccs, drop));
    hide Absolute, Merge;
    assert SortKey(r[i]) < SortKey(r[j]);
    MergedIsSorted(track, ccs, drop);
    SortedPosition(r, i, j);
  }

  // ---- order among events of one tick ----

  /** Every note event precedes the events of the same tick or a later one that are neither note, controller nor end-of-track. */
  lemma {:induction false} NotesPrecedeOthers(track: Track, ccs: seq<CcEvent>, drop: set<int>, i: nat, j: nat)
    requires i < |Absolute(Merge(track, ccs, drop))| && j < |Absolute(Merge(track, ccs, drop))|
    requires var r := Absolute(Merge(track, ccs, drop));
      (r[i].body.NoteOn? || r[i].body.NoteOff?) && (r[j].body.SetTempo? || r[j].body.Other?) && r[i].tick <= r[j].tick
    ensures i < j
  {
    var r := Absolute(Merge(track, ccs, drop));
    hide Absolute, Merge;
    assert SortKey(r[i]) < SortKey(r[j]);
    MergedIsSorted(track, ccs, drop);
    SortedPosition(r, i, j);
  }

  /** A class of events that the merge neither adds to nor strips. */
  ghost predicate Bystanders(p: Timed -> bool, owned: set<Pair>) {
    forall e :: p(e) ==> NotEot(e) && !Stripped(owned, e.body)
  }

  lemma {:induction false} ExpandedClass(track: Track, ccs: seq<CcEvent>, drop: set<int>, p: Timed -> bool)
    requires Bystanders(p, OwnedPairs(ccs))
    ensures Filter(Expanded(track, ccs, drop), p) == Filter(Without(Absolute(track), drop), p)
  {
    var w, owned := Without(Absolute(track), drop), OwnedPairs(ccs);
    FilterConcat(Filter(w, NotOwned(owned)), Injected(ccs), p);
    InjectedAreOwned(ccs, owned);
    FilterNone(Injected(ccs), p);
    FilterCommutes(w, NotOwned(owned), p);
    FilterMembers(w, p);
    FilterAll(Filter(w, p), NotOwned(owned));
  }

  lemma {:induction false} MergedClass(track: Track, ccs: seq<CcEvent>, drop: set<int>, p: Timed -> bool)
    requires Bystanders(p, OwnedPairs(ccs))
    ensures Filter(Absolute(Merge(track, ccs, drop)), p) == Sort(Filter(Without(Absolute(track), drop), p), SortKey)
  {
    var x := Expanded(track, ccs, drop);
    MergedIsAbsolute(track, ccs, drop);
    FilterOfSort(MoveEot(x), p, SortKey);
    MoveEotKeepsClass(x, p);
    ExpandedClass(track, ccs, drop, p);
  }

  /**
   What the merge does to the order of the events that it neither adds nor strips: a
   class of them keeps its order if and only if the class is in order of tick and rank.
   */
  lemma {:induction false} MergeKeepsClassExactly(track: Track, ccs: seq<CcEvent>, drop: set<int>, p: Timed -> bool)
    requires Bystanders(p, OwnedPairs(ccs))
    ensures Filter(Absolute(Merge(track, ccs, drop)), p) == Filter(Without(Absolute(track), drop), p)
       <==> Sorted(Filter(Without(Absolute(track), drop), p), SortKey)
  {
    var kept := Filter(Without(Absolute(track), drop), p);
    MergedClass(track, ccs, drop, p);
    SortSorted(kept, SortKey);
    if Sorted(kept, SortKey) { SortOfSorted(kept, SortKey); }
  }

  function TickOf(e: Timed): int { e.tick }

  lemma {:induction false} WithoutKeepsOrder(s: seq<Timed>, drop: set<int>)
    requires Sorted(s, TickOf)
    ensures Sorted(Without(s, drop), TickOf)
  {
    if s != [] {
      var init := s[..|s| - 1];
      WithoutKeepsOrder(init, drop);
      WithoutIsSubset(init, drop);
      forall e | e in Without(init, drop) ensures TickOf(e) <= TickOf(s[|s| - 1]) {
        var i :| 0 <= i < |init| && init[i] == e;
        assert TickOf(s[i]) <= TickOf(s[|s| - 1]);
      }
    }
  }

  /** No event stands before one of its tick that the comparator ranks lower. */
  ghost predicate RanksInOrder(s: seq<Timed>) {
    forall i, j :: 0 <= i < j < |s| && s[i].tick == s[j].tick ==> TypeRank(s[i].body) <= TypeRank(s[j].body)
  }

  lemma {:induction false} KeptInTickOrder(track: Track, drop: set<int>, p: Timed -> bool)
    requires NonNegativeDeltas(track)
    ensures Sorted(Filter(Without(Absolute(track), drop), p), TickOf)
  {
    AbsoluteIsOrdered(track);
    assert Sorted(Absolute(track), TickOf);
    WithoutKeepsOrder(Absolute(track), drop);
    FilterKeepsSorted(Without(Absolute(track), drop), p, TickOf);
  }

  lemma {:induction false} SortedByRank(s: seq<Timed>)
    requires Sorted(s, TickOf)
    ensures Sorted(s, SortKey) <==> RanksInOrder(s)
  {
    if RanksInOrder(s) {
      forall i, j | 0 <= i < j < |s| ensures SortKey(s[i]) <= SortKey(s[j]) { assert TickOf(s[i]) <= TickOf(s[j]); }
    } else {
      var i, j :| 0 <= i < j < |s| && s[i].tick == s[j].tick && TypeRank(s[i].body) > TypeRank(s[j].body);
      assert SortKey(s[i]) > SortKey(s[j]);
    }
  }

  /** With deltas as the format has them: the class keeps its order if and only if the ranks of every tick are in order. */
  lemma {:induction false} MergeReordersExactly(track: Track, ccs: seq<CcEvent>, drop: set<int>, p: Timed -> bool)
    requires NonNegativeDeltas(track) && Bystanders(p, OwnedPairs(ccs))
    ensures Filter(Absolute(Merge(track, ccs, drop)), p) == Filter(Without(Absolute(track), drop), p)
       <==> RanksInOrder(Filter(Without(Absolute(track), drop), p))
  {
    MergeKeepsClassExactly(track, ccs, drop, p);
    KeptInTickOrder(track, drop, p);
    SortedByRank(Filter(Without(Absolute(track), drop), p));
  }

  predicate IsPlain(e: Timed) { !e.body.Controller? && e.body != EndOfTrack }

  /** A program change and a note on one tick, in this order. */
  function ProgramThenNote(note: Body): Track { [Event(0, Other("programChange")), Event(0, note)] }

  lemma {:induction false} ProgramThenNoteKept(note: Body)
    requires IsNoteKind(note)
    ensures Filter(Without(Absolute(ProgramThenNote(note)), {}), IsPlain) == [Timed(0, Other("programChange"))] + [Timed(0, note)]
  {
    var both := [Timed(0, Other("programChange"))] + [Timed(0, note)];
    AbsoluteOfTwo(Event(0, Other("programChange")), Event(0, note));
    WithoutNothing(both);
    FilterAll(both, IsPlain);
    hide Absolute, Without, Filter;
  }

  lemma {:induction false} AbsoluteOfTwo(a: Event, b: Event)
    ensures Absolute([a, b]) == [Timed(a.delta, a.body)] + [Timed(a.delta + b.delta, b.body)]
  {
    assert [a, b][..1] == [a] && [a][..0] == [];
    assert EndTick([]) == 0 && EndTick([a]) == a.delta;
    assert Absolute([a]) == [Timed(a.delta, a.body)];
  }

  /** Merging turns the two around, whatever the controllers: the note sounds under the program before. */
  lemma {:induction false} ProgramChangeFallsBehind(note: Body, ccs: seq<CcEvent>)
    requires IsNoteKind(note)
    ensures Filter(Absolute(Merge(ProgramThenNote(note), ccs, {})), IsPlain) == [Timed(0, note)] + [Timed(0, Other("programChange"))]
  {
    MergedClass(ProgramThenNote(note), ccs, {}, IsPlain);
    ProgramThenNoteKept(note);
    SortOfTwo(Timed(0, Other("programChange")), Timed(0, note), SortKey);
    hide Sort, Filter, Merge, Absolute;
  }
}
