/**
 What the merge does to single events, told by their fields: how many events with a
 given tick and content it leaves, and the order of the baked controllers.
 */
module MergedEvents {
  import opened Midi
  import opened StableSort
  import opened TrackMerge

  /** The events of the track with this content at this tick, those at the indices in `drop` left aside. */
  function Places(track: Track, drop: set<int>, tick: int, body: Body): set<int> {
    set i | 0 <= i < |track| && i !in drop && track[i].body == body && EndTick(track[..i + 1]) == tick
  }

  /** The entries of `ccs` with these four fields. */
  function Entries(ccs: seq<CcEvent>, tick: int, channel: int, controllerType: int, value: int): set<int> {
    set k | 0 <= k < |ccs| && ccs[k].absTick == tick && ccs[k].channel == channel
              && ccs[k].controllerType == controllerType && ccs[k].value == value
  }

  predicate Bakes(ccs: seq<CcEvent>, channel: int, controllerType: int) {
    exists k :: 0 <= k < |ccs| && ccs[k].channel == channel && ccs[k].controllerType == controllerType
  }

  // ---- counting ----

  lemma {:induction false} PlacesSnoc(track: Track, drop: set<int>, tick: int, body: Body)
    requires track != []
    ensures var n := |track| - 1;
      Places(track, drop, tick, body)
      == Places(track[..n], drop, tick, body) + if n !in drop && track[n].body == body && EndTick(track) == tick then {n} else {}
  {
    var n := |track| - 1;
    assert track[..n + 1] == track;
    forall i | 0 <= i < n ensures track[..n][..i + 1] == track[..i + 1] && track[..n][i] == track[i] {}
  }

  lemma {:induction false} PlacesAreCounted(track: Track, drop: set<int>, tick: int, body: Body)
    ensures |Places(track, drop, tick, body)| == multiset(Without(Absolute(track), drop))[Timed(tick, body)]
  {
    if track != [] {
      var n := |track| - 1;
      PlacesAreCounted(track[..n], drop, tick, body);
      PlacesSnoc(track, drop, tick, body);
      assert n !in Places(track[..n], drop, tick, body);
      var init, last := Absolute(track[..n]), Timed(EndTick(track), track[n].body);
      assert (init + [last])[..n] == init;
      hide Places, EndTick;
    }
  }

  lemma {:induction false} EntriesSnoc(ccs: seq<CcEvent>, tick: int, channel: int, controllerType: int, value: int)
    requires ccs != []
    ensures var n := |ccs| - 1;
      Entries(ccs, tick, channel, controllerType, value)
      == Entries(ccs[..n], tick, channel, controllerType, value)
         + if ccs[n] == CcEvent(tick, channel, controllerType, value) then {n} else {}
  {
  }

  lemma {:induction false} EntriesAreCounted(ccs: seq<CcEvent>, tick: int, channel: int, controllerType: int, value: int)
    ensures |Entries(ccs, tick, channel, controllerType, value)|
         == multiset(Injected(ccs))[Timed(tick, Controller(channel, controllerType, value))]
  {
    if ccs != [] {
      var n := |ccs| - 1;
      EntriesAreCounted(ccs[..n], tick, channel, controllerType, value);
      EntriesSnoc(ccs, tick, channel, controllerType, value);
      assert n !in Entries(ccs[..n], tick, channel, controllerType, value);
      hide Entries;
    }
  }

  lemma {:induction false} FilterCounts(s: seq<Timed>, p: Timed -> bool, e: Timed)
    ensures multiset(Filter(s, p))[e] == if p(e) then multiset(s)[e] else 0
  {
    if s != [] {
      FilterCounts(s[..|s| - 1], p, e);
      assert s == s[..|s| - 1] + [s[|s| - 1]];
    }
  }

  lemma {:induction false} InjectedHasOnlyBaked(ccs: seq<CcEvent>, e: Timed)
    ensures e in Injected(ccs) ==> e.body.Controller? && Bakes(ccs, e.body.channel, e.body.controllerType)
  {
    InjectedAreOwned(ccs, OwnedPairs(ccs));
    if e in Injected(ccs) {
      var cc :| cc in ccs && e == Timed(cc.absTick, CcBody(cc));
      var k :| 0 <= k < |ccs| && ccs[k] == cc;
    }
  }

  lemma {:induction false} StrippedIsBaked(ccs: seq<CcEvent>, b: Body)
    ensures Stripped(OwnedPairs(ccs), b) <==> b.Controller? && Bakes(ccs, b.channel, b.controllerType)
  {
    if Stripped(OwnedPairs(ccs), b) {
      var cc :| cc in ccs && Pair(cc.channel, cc.controllerType) == Pair(b.channel, b.controllerType);
      var k :| 0 <= k < |ccs| && ccs[k] == cc;
    }
    if b.Controller? && Bakes(ccs, b.channel, b.controllerType) {
      var k :| 0 <= k < |ccs| && ccs[k].channel == b.channel && ccs[k].controllerType == b.controllerType;
      assert ccs[k] in ccs;
    }
  }

  lemma {:induction false} CountInMerged(track: Track, ccs: seq<CcEvent>, drop: set<int>, e: Timed)
    requires e.body != EndOfTrack
    ensures multiset(Absolute(Merge(track, ccs, drop)))[e]
         == (if Stripped(OwnedPairs(ccs), e.body) then 0 else multiset(Without(Absolute(track), drop))[e]) + multiset(Injected(ccs))[e]
  {
    var w := Without(Absolute(track), drop);
    var kept := Filter(w, NotOwned(OwnedPairs(ccs)));
    MergeIsPermutation(track, ccs, drop);
    FilterCounts(Absolute(Merge(track, ccs, drop)), NotEot, e);
    FilterCounts(w, NotOwned(OwnedPairs(ccs)), e);
    FilterCounts(kept, NotEot, e);
  }

  /**
   How many events of each content the merge leaves at each tick, end-of-track aside.
   Controllers on a pair that is baked are those of the list, with their own values;
   everything else is as often there as before, dropped events aside.
   */
  lemma {:induction false} MergedContents(track: Track, ccs: seq<CcEvent>, drop: set<int>, tick: int, body: Body)
    requires body != EndOfTrack
    ensures |Places(Merge(track, ccs, drop), {}, tick, body)|
         == if body.Controller? && Bakes(ccs, body.channel, body.controllerType)
            then |Entries(ccs, tick, body.channel, body.controllerType, body.value)|
            else |Places(track, drop, tick, body)|
  {
    var e := Timed(tick, body);
    PlacesAreCounted(Merge(track, ccs, drop), {}, tick, body);
    WithoutNothing(Absolute(Merge(track, ccs, drop)));
    PlacesAreCounted(track, drop, tick, body);
    CountInMerged(track, ccs, drop, e);
    StrippedIsBaked(ccs, body);
    InjectedHasOnlyBaked(ccs, e);
    if body.Controller? { EntriesAreCounted(ccs, tick, body.channel, body.controllerType, body.value); }
  }

  // ---- the order of the baked controllers ----

  function OnPair(channel: int, controllerType: int): Timed -> bool {
    (e: Timed) => e.body.Controller? && e.body.channel == channel && e.body.controllerType == controllerType
  }

  function ForPair(channel: int, controllerType: int): CcEvent -> bool {
    (cc: CcEvent) => cc.channel == channel && cc.controllerType == controllerType
  }

  function CcTick(cc: CcEvent): int { cc.absTick }

  lemma {:induction false} InjectedForPair(ccs: seq<CcEvent>, channel: int, controllerType: int)
    ensures Filter(Injected(ccs), OnPair(channel, controllerType)) == Injected(Filter(ccs, ForPair(channel, controllerType)))
  {
    if ccs != [] {
      var init, last := ccs[..|ccs| - 1], ccs[|ccs| - 1];
      InjectedForPair(init, channel, controllerType);
      var kept := Filter(init, ForPair(channel, controllerType));
      assert (kept + [last])[..|kept|] == kept;
    }
  }

  lemma {:induction false} InsertInjected(ccs: seq<CcEvent>, cc: CcEvent)
    ensures Insert(Injected(ccs), Timed(cc.absTick, CcBody(cc)), SortKey) == Injected(Insert(ccs, cc, CcTick))
  {
    if ccs == [] || ccs[|ccs| - 1].absTick <= cc.absTick {
      assert (ccs + [cc])[..|ccs|] == ccs;
    } else {
      var init, last := ccs[..|ccs| - 1], ccs[|ccs| - 1];
      InsertInjected(init, cc);
      var more := Insert(init, cc, CcTick);
      assert (more + [last])[..|more|] == more;
    }
  }

  lemma {:induction false} SortInjected(ccs: seq<CcEvent>)
    ensures Sort(Injected(ccs), SortKey) == Injected(Sort(ccs, CcTick))
  {
    if ccs != [] {
      SortInjected(ccs[..|ccs| - 1]);
      InsertInjected(Sort(ccs[..|ccs| - 1], CcTick), ccs[|ccs| - 1]);
    }
  }

  lemma {:induction false} InjectedAt(ccs: seq<CcEvent>, k: nat)
    requires k < |ccs|
    ensures Injected(ccs)[k] == Timed(ccs[k].absTick, Controller(ccs[k].channel, ccs[k].controllerType, ccs[k].value))
  {
    if k < |ccs| - 1 { InjectedAt(ccs[..|ccs| - 1], k); }
  }

  /** On a baked pair, the merged track has exactly the controllers of the list, in stable order of their ticks. */
  lemma {:induction false} BakedInOrder(track: Track, ccs: seq<CcEvent>, drop: set<int>, channel: int, controllerType: int)
    requires Bakes(ccs, channel, controllerType)
    ensures var merged := Filter(Absolute(Merge(track, ccs, drop)), OnPair(channel, controllerType));
      var sorted := Sort(Filter(ccs, ForPair(channel, controllerType)), CcTick);
      && |merged| == |sorted|
      && forall k :: 0 <= k < |sorted| ==> merged[k] == Timed(sorted[k].absTick, Controller(channel, controllerType, sorted[k].value))
  {
    var p, q := OnPair(channel, controllerType), ForPair(channel, controllerType);
    var sorted := Sort(Filter(ccs, q), CcTick);
    OnlyInjected(track, ccs, drop, channel, controllerType);
    SortIsPermutation(Filter(ccs, q), CcTick);
    FilterMembers(ccs, q);
    forall k | 0 <= k < |sorted|
      ensures Injected(sorted)[k] == Timed(sorted[k].absTick, Controller(channel, controllerType, sorted[k].value))
    {
      assert sorted[k] in Filter(ccs, q);
      InjectedAt(sorted, k);
    }
  }

  lemma {:induction false} OnlyInjected(track: Track, ccs: seq<CcEvent>, drop: set<int>, channel: int, controllerType: int)
    requires Bakes(ccs, channel, controllerType)
    ensures Filter(Absolute(Merge(track, ccs, drop)), OnPair(channel, controllerType))
         == Injected(Sort(Filter(ccs, ForPair(channel, controllerType)), CcTick))
  {
    var p, x := OnPair(channel, controllerType), Expanded(track, ccs, drop);
    var kept := Filter(Without(Absolute(track), drop), NotOwned(OwnedPairs(ccs)));
    MergedIsAbsolute(track, ccs, drop);
    FilterOfSort(MoveEot(x), p, SortKey);
    MoveEotKeepsClass(x, p);
    FilterConcat(kept, Injected(ccs), p);
    FilterMembers(Without(Absolute(track), drop), NotOwned(OwnedPairs(ccs)));
    forall e | e in kept ensures !p(e) { StrippedIsBaked(ccs, e.body); }
    FilterNone(kept, p);
    InjectedForPair(ccs, channel, controllerType);
    SortInjected(Filter(ccs, ForPair(channel, controllerType)));
    assert [] + Filter(Injected(ccs), p) == Filter(Injected(ccs), p);
  }
}
