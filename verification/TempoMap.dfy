/**
 The tempo map: which tempo is in force at each tick, and the conversion between
 ticks and seconds. The reference meaning is elementary: tick u lasts as long as
 the tempo in force at u says (RP-001, Set Tempo), 120 BPM before the first
 tempo event, and the time of tick t is the sum over all earlier ticks.
 */
module TempoMap {
  import opened Midi
  import opened StableSort
  import opened Wrappers

  datatype TempoEvent = TempoEvent(tick: int, micros: int)
  datatype Entry = Entry(tick: int, time: real, micros: int)

  // ---- collecting ----

  function TrackTempos(track: Track): seq<TempoEvent> {
    if track == [] then [] else
      var last := track[|track| - 1].body;
      TrackTempos(track[..|track| - 1]) + if last.SetTempo? then [TempoEvent(EndTick(track), last.micros)] else []
  }

  /** All tempo events in file order, at absolute ticks. */
  function FileTempos(tracks: seq<Track>): seq<TempoEvent> {
    if tracks == [] then [] else FileTempos(tracks[..|tracks| - 1]) + TrackTempos(tracks[|tracks| - 1])
  }

  predicate Positive(e: TempoEvent) { e.micros > 0 }
  function TickOf(e: TempoEvent): int { e.tick }

  ghost predicate WellFormedTracks(tracks: seq<Track>) {
    forall t :: 0 <= t < |tracks| ==> NonNegativeDeltas(tracks[t])
  }

  lemma {:induction false} TrackTemposNonNegative(track: Track)
    requires NonNegativeDeltas(track)
    ensures forall e :: e in TrackTempos(track) ==> e.tick >= 0
  {
    if track != [] { TrackTemposNonNegative(track[..|track| - 1]); }
  }

  lemma {:induction false} FileTemposNonNegative(tracks: seq<Track>)
    requires WellFormedTracks(tracks)
    ensures forall e :: e in FileTempos(tracks) ==> e.tick >= 0
  {
    if tracks != [] {
      FileTemposNonNegative(tracks[..|tracks| - 1]);
      TrackTemposNonNegative(tracks[|tracks| - 1]);
    }
  }

  // ---- reference meaning ----

  /** The tempo event in force at tick `t`: greatest tick not after `t`, the last one in file order among equals. */
  function InForce(s: seq<TempoEvent>, t: int): Option<TempoEvent> {
    if s == [] then None else
      var w, last := InForce(s[..|s| - 1], t), s[|s| - 1];
      if last.tick <= t && (w.None? || w.value.tick <= last.tick) then Some(last) else w
  }

  function MicrosAt(s: seq<TempoEvent>, t: int): int {
    var w := InForce(s, t);
    if w.Some? then w.value.micros else DEFAULT_MICROS
  }

  /** Sum over the first `n` ticks of the microseconds per beat in force. */
  function Elapsed(s: seq<TempoEvent>, n: nat): int {
    if n == 0 then 0 else Elapsed(s, n - 1) + MicrosAt(s, n - 1)
  }

  function Denominator(ppq: int): real { ppq as real * 1000000.0 }

  function ElapsedSeconds(s: seq<TempoEvent>, n: nat, ppq: int): real
    requires ppq > 0
  {
    Elapsed(s, n) as real / Denominator(ppq)
  }

  /** The tempo in force does not depend on the order in which different ticks were listed. */
  lemma {:induction false} InForceOfInsert(s: seq<TempoEvent>, x: TempoEvent, t: int)
    requires Sorted(s, TickOf)
    ensures InForce(Insert(s, x, TickOf), t) == InForce(s + [x], t)
  {
    if s != [] && x.tick < s[|s| - 1].tick {
      var init, last := s[..|s| - 1], s[|s| - 1];
      InForceOfInsert(init, x, t);
      assert Insert(s, x, TickOf) == Insert(init, x, TickOf) + [last];
      SortedBound(s);
      hide *;
      InForceSnoc(Insert(init, x, TickOf), init + [x], last, t);
      InForceSwap(s, x, t);
    }
  }

  lemma {:induction false} SortedBound(s: seq<TempoEvent>)
    requires Sorted(s, TickOf) && s != []
    ensures forall e :: e in s[..|s| - 1] ==> e.tick <= s[|s| - 1].tick
  {
    forall e | e in s[..|s| - 1] ensures e.tick <= s[|s| - 1].tick {
      var i :| 0 <= i < |s| - 1 && s[i] == e;
      assert TickOf(s[i]) <= TickOf(s[|s| - 1]);
    }
  }

  lemma {:induction false} InForceSwap(s: seq<TempoEvent>, x: TempoEvent, t: int)
    requires s != [] && x.tick < s[|s| - 1].tick && forall e :: e in s[..|s| - 1] ==> e.tick <= s[|s| - 1].tick
    ensures InForce(s[..|s| - 1] + [x] + [s[|s| - 1]], t) == InForce(s + [x], t)
  {
    var init, last := s[..|s| - 1], s[|s| - 1];
    assert (init + [x])[..|init|] == init && (init + [x] + [last])[..|init| + 1] == init + [x] && (s + [x])[..|s|] == s;
    InForceIsMember(init, t);
  }

  lemma {:induction false} InForceIsMember(s: seq<TempoEvent>, t: int)
    ensures InForce(s, t).Some? ==> InForce(s, t).value in s && InForce(s, t).value.tick <= t
  {
    if s != [] { InForceIsMember(s[..|s| - 1], t); }
  }

  lemma {:induction false} InForceSnoc(a: seq<TempoEvent>, b: seq<TempoEvent>, x: TempoEvent, t: int)
    requires InForce(a, t) == InForce(b, t)
    ensures InForce(a + [x], t) == InForce(b + [x], t)
  {
    assert (a + [x])[..|a|] == a && (b + [x])[..|b|] == b;
  }

  lemma {:induction false} InForceOfSort(s: seq<TempoEvent>, t: int)
    ensures InForce(Sort(s, TickOf), t) == InForce(s, t)
  {
    if s != [] {
      var init, last := s[..|s| - 1], s[|s| - 1];
      InForceOfSort(init, t);
      SortSorted(init, TickOf);
      InForceOfInsert(Sort(init, TickOf), last, t);
      InForceSnoc(Sort(init, TickOf), init, last, t);
      assert s == init + [last];
    }
  }

  lemma {:induction false} ElapsedAgrees(a: seq<TempoEvent>, b: seq<TempoEvent>, n: nat)
    requires forall u :: 0 <= u < n ==> MicrosAt(a, u) == MicrosAt(b, u)
    ensures Elapsed(a, n) == Elapsed(b, n)
  {
    if n > 0 { ElapsedAgrees(a, b, n - 1); }
  }

  lemma {:induction false} ElapsedLinear(s: seq<TempoEvent>, a: nat, b: nat, m: int)
    requires a <= b && forall u :: a <= u < b ==> MicrosAt(s, u) == m
    ensures Elapsed(s, b) == Elapsed(s, a) + (b - a) * m
    decreases b - a
  {
    if a < b {
      ElapsedLinear(s, a, b - 1, m);
      assert (b - a) * m == (b - 1 - a) * m + m;
    }
  }

  lemma {:induction false} ElapsedGrows(s: seq<TempoEvent>, a: nat, b: nat)
    requires a < b && forall e :: e in s ==> Positive(e)
    ensures Elapsed(s, a) < Elapsed(s, b)
    decreases b - a
  {
    InForceIsMember(s, b - 1);
    if a < b - 1 { ElapsedGrows(s, a, b - 1); }
  }

  // ---- building the map ----

  ghost predicate StrictlyIncreasing(map_: seq<Entry>) {
    forall i, j :: 0 <= i < j < |map_| ==> map_[i].tick < map_[j].tick && map_[i].time < map_[j].time
  }

  /** Does entry `i` carry the tempo of tick `t`, when `t` lies between it and the next entry? */
  ghost predicate CoversTick(map_: seq<Entry>, s: seq<TempoEvent>, i: int, t: int) {
    (0 <= i < |map_| && map_[i].tick <= t && (i + 1 < |map_| ==> t < map_[i + 1].tick))
      ==> MicrosAt(s, t) == map_[i].micros
  }

  ghost predicate Covers(map_: seq<Entry>, s: seq<TempoEvent>) {
    forall i, t :: CoversTick(map_, s, i, t)
  }

  ghost predicate Represents(map_: seq<Entry>, s: seq<TempoEvent>, ppq: int)
    requires ppq > 0
  {
    && map_ != [] && map_[0].tick == 0 && map_[0].time == 0.0
    && (forall i, j :: 0 <= i < j < |map_| ==> map_[i].tick < map_[j].tick)
    && (forall i :: 0 <= i < |map_| ==> map_[i].tick >= 0 && map_[i].time == ElapsedSeconds(s, map_[i].tick, ppq))
    && (forall i :: 0 <= i < |map_| ==> map_[i].micros > 0)
    && Covers(map_, s)
  }

  lemma {:induction false} AddFractions(a: real, b: real, d: real)
    requires d > 0.0
    ensures a / d + b / d == (a + b) / d
  {
  }

  lemma {:induction false} ScaleFraction(a: real, m: real, d: real)
    requires d > 0.0
    ensures a * (m / d) == (a * m) / d
  {
  }

  /** What one more tempo event, not earlier than those before it, changes. */
  lemma {:induction false} MicrosAtSnoc(s: seq<TempoEvent>, e: TempoEvent, t: int)
    requires forall x :: x in s ==> x.tick <= e.tick
    ensures MicrosAt(s + [e], t) == if e.tick <= t then e.micros else MicrosAt(s, t)
  {
    assert (s + [e])[..|s|] == s;
    InForceIsMember(s, t);
  }

  /** The state of the walk after the events in `s`: tempo, tick and time reached. */
  ghost predicate Walked(map_: seq<Entry>, s: seq<TempoEvent>, ppq: int, lastTick: int, cumSecs: real, curMicros: int)
    requires ppq > 0
  {
    && lastTick >= 0 && curMicros > 0
    && cumSecs == ElapsedSeconds(s, lastTick, ppq)
    && (forall e :: e in s ==> e.tick <= lastTick)
    && (forall t :: t >= lastTick ==> MicrosAt(s, t) == curMicros)
    && (if map_ == [] then s == [] && lastTick == 0
        else Represents(map_, s, ppq) && map_[|map_| - 1].tick == lastTick)
  }

  lemma {:induction false} AdvanceTime(s: seq<TempoEvent>, e: TempoEvent, ppq: int, lastTick: nat, cur: int)
    requires ppq > 0 && lastTick <= e.tick
    requires forall x :: x in s ==> x.tick <= lastTick
    requires forall t :: t >= lastTick ==> MicrosAt(s, t) == cur
    ensures ElapsedSeconds(s + [e], e.tick, ppq)
         == ElapsedSeconds(s, lastTick, ppq) + ((e.tick - lastTick) * cur) as real / Denominator(ppq)
  {
    forall u | 0 <= u < e.tick ensures MicrosAt(s, u) == MicrosAt(s + [e], u) { MicrosAtSnoc(s, e, u); }
    ElapsedAgrees(s, s + [e], e.tick);
    ElapsedLinear(s, lastTick, e.tick, cur);
    AddFractions(Elapsed(s, lastTick) as real, ((e.tick - lastTick) * cur) as real, Denominator(ppq));
  }

  lemma {:induction false} EarlierTimesStay(s: seq<TempoEvent>, e: TempoEvent, ppq: int, t: nat)
    requires ppq > 0 && t <= e.tick && forall x :: x in s ==> x.tick <= e.tick
    ensures ElapsedSeconds(s + [e], t, ppq) == ElapsedSeconds(s, t, ppq)
  {
    forall u | 0 <= u < t ensures MicrosAt(s, u) == MicrosAt(s + [e], u) { MicrosAtSnoc(s, e, u); }
    ElapsedAgrees(s, s + [e], t);
  }

  /** Overwrite the last entry on an equal tick, append otherwise. */
  function Extend(map_: seq<Entry>, e: TempoEvent, now: real): seq<Entry> {
    var n := |map_| - 1;
    if map_ != [] && map_[n].tick == e.tick then map_[n := map_[n].(micros := e.micros)]
    else map_ + [Entry(e.tick, now, e.micros)]
  }

  lemma {:induction false} ExtendCovers(map_: seq<Entry>, s: seq<TempoEvent>, e: TempoEvent, now: real)
    requires Covers(map_, s)
    requires forall i, j :: 0 <= i < j < |map_| ==> map_[i].tick < map_[j].tick
    requires map_ != [] ==> map_[|map_| - 1].tick <= e.tick
    requires forall x :: x in s ==> x.tick <= e.tick
    ensures Covers(Extend(map_, e, now), s + [e])
  {
    var next := Extend(map_, e, now);
    forall i, t ensures CoversTick(next, s + [e], i, t) {
      MicrosAtSnoc(s, e, t);
      assert CoversTick(map_, s, i, t);
    }
  }

  lemma {:induction false} ExtendRepresents(map_: seq<Entry>, s: seq<TempoEvent>, e: TempoEvent, ppq: int, now: real)
    requires ppq > 0 && Represents(map_, s, ppq)
    requires map_[|map_| - 1].tick <= e.tick && Positive(e)
    requires forall x :: x in s ==> x.tick <= e.tick
    requires now == ElapsedSeconds(s + [e], e.tick, ppq)
    ensures Represents(Extend(map_, e, now), s + [e], ppq)
  {
    ExtendCovers(map_, s, e, now);
    var next := Extend(map_, e, now);
    forall i | 0 <= i < |map_| ensures map_[i].time == ElapsedSeconds(s + [e], map_[i].tick, ppq) {
      assert map_[i].tick <= map_[|map_| - 1].tick;
      EarlierTimesStay(s, e, ppq, map_[i].tick);
    }
  }

  lemma {:induction false} FirstAtZero(e: TempoEvent, ppq: int, now: real)
    requires ppq > 0 && Positive(e) && e.tick == 0 && now == ElapsedSeconds([e], 0, ppq)
    ensures Represents(Extend([], e, now), [e], ppq)
  {
    forall t ensures MicrosAt([e], t) == if e.tick <= t then e.micros else DEFAULT_MICROS {
      MicrosAtSnoc([], e, t);
      assert [] + [e] == [e];
    }
  }

  /** One iteration of the walk. */
  lemma {:induction false} WalkStep(map_: seq<Entry>, s: seq<TempoEvent>, e: TempoEvent, ppq: int,
                                    lastTick: int, cumSecs: real, curMicros: int)
    requires ppq > 0 && Walked(map_, s, ppq, lastTick, cumSecs, curMicros)
    requires Positive(e) && lastTick <= e.tick && (map_ == [] ==> e.tick == 0)
    ensures var now := cumSecs + ((e.tick - lastTick) * curMicros) as real / Denominator(ppq);
      Walked(Extend(map_, e, now), s + [e], ppq, e.tick, now, e.micros)
  {
    var now := cumSecs + ((e.tick - lastTick) * curMicros) as real / Denominator(ppq);
    AdvanceTime(s, e, ppq, lastTick, curMicros);
    forall t | t >= e.tick ensures MicrosAt(s + [e], t) == e.micros { MicrosAtSnoc(s, e, t); }
    if map_ == [] {
      assert s + [e] == [e];
      FirstAtZero(e, ppq, now);
    } else {
      ExtendRepresents(map_, s, e, ppq, now);
    }
  }

  lemma {:induction false} WalkStart(ppq: int)
    requires ppq > 0
    ensures Walked([], [], ppq, 0, 0.0, DEFAULT_MICROS)
    ensures Walked([Entry(0, 0.0, DEFAULT_MICROS)], [], ppq, 0, 0.0, DEFAULT_MICROS)
  {
    assert ElapsedSeconds([], 0, ppq) == 0.0;
  }

  lemma {:induction false} WalkEnd(map_: seq<Entry>, s: seq<TempoEvent>, ppq: int, lastTick: int, cumSecs: real, curMicros: int)
    requires ppq > 0 && Walked(map_, s, ppq, lastTick, cumSecs, curMicros)
    ensures map_ != [] ==> Represents(map_, s, ppq) && map_[|map_| - 1].tick == lastTick
  {
  }

  method WalkTempos(tempoEvents: seq<TempoEvent>, ppq: int) returns (map_: seq<Entry>)
    requires ppq > 0 && Sorted(tempoEvents, TickOf)
    requires forall i :: 0 <= i < |tempoEvents| ==> Positive(tempoEvents[i]) && tempoEvents[i].tick >= 0
    ensures Represents(map_, tempoEvents, ppq)
  {
    hide Walked;
    map_ := [];
    var cumSecs, lastTick, curMicros := 0.0, 0, DEFAULT_MICROS;
    WalkStart(ppq);
    assert tempoEvents[..0] == [];
    if |tempoEvents| == 0 || tempoEvents[0].tick > 0 {
      map_ := [Entry(0, 0.0, DEFAULT_MICROS)];
    }
    for i := 0 to |tempoEvents|
      invariant Walked(map_, tempoEvents[..i], ppq, lastTick, cumSecs, curMicros)
      invariant i < |tempoEvents| ==> lastTick <= tempoEvents[i].tick && (map_ == [] ==> tempoEvents[i].tick == 0)
      invariant i > 0 || |tempoEvents| == 0 ==> map_ != []
    {
      var te := tempoEvents[i];
      var delta := te.tick - lastTick;
      WalkStep(map_, tempoEvents[..i], te, ppq, lastTick, cumSecs, curMicros);
      assert tempoEvents[..i + 1] == tempoEvents[..i] + [te];
      cumSecs := cumSecs + (delta * curMicros) as real / Denominator(ppq);
      if |map_| > 0 && map_[|map_| - 1].tick == te.tick {
        map_ := map_[|map_| - 1 := map_[|map_| - 1].(micros := te.micros)];
      } else {
        map_ := map_ + [Entry(te.tick, cumSecs, te.micros)];
      }
      lastTick := te.tick;
      curMicros := te.micros;
      if i + 1 < |tempoEvents| { assert TickOf(tempoEvents[i]) <= TickOf(tempoEvents[i + 1]); }
    }
    assert tempoEvents[..|tempoEvents|] == tempoEvents;
    WalkEnd(map_, tempoEvents, ppq, lastTick, cumSecs, curMicros);
  }

  /** The tempo events that count for a bake: positive tempos of all tracks, stably sorted by tick. */
  function BakeTempos(tracks: seq<Track>): seq<TempoEvent> {
    Sort(Filter(FileTempos(tracks), Positive), TickOf)
  }

  lemma {:induction false} TrackTemposSnoc(track: Track, i: nat)
    requires i < |track|
    ensures TrackTempos(track[..i + 1]) == if track[i].body.SetTempo?
      then TrackTempos(track[..i]) + [TempoEvent(EndTick(track[..i + 1]), track[i].body.micros)]
      else TrackTempos(track[..i])
  {
    assert track[..i + 1][..i] == track[..i];
  }

  lemma {:induction false} FilterOne(e: TempoEvent)
    ensures Filter([e], Positive) == if Positive(e) then [e] else []
  {
    assert [e][..0] == [];
  }

  method PositiveTempos(track: Track) returns (r: seq<TempoEvent>)
    ensures r == Filter(TrackTempos(track), Positive)
  {
    r := [];
    var absTick := 0;
    for i := 0 to |track|
      invariant absTick == EndTick(track[..i])
      invariant r == Filter(TrackTempos(track[..i]), Positive)
    {
      var ev := track[i];
      absTick := absTick + ev.delta;
      AbsoluteSnoc(track, i);
      TrackTemposSnoc(track, i);
      if ev.body.SetTempo? {
        FilterConcat(TrackTempos(track[..i]), [TempoEvent(absTick, ev.body.micros)], Positive);
        FilterOne(TempoEvent(absTick, ev.body.micros));
        if ev.body.micros > 0 { r := r + [TempoEvent(absTick, ev.body.micros)]; }
      }
    }
    assert track[..|track|] == track;
  }

  method BuildTempoMap(tracks: seq<Track>, ppq: int) returns (map_: seq<Entry>)
    requires ppq > 0 && WellFormedTracks(tracks)
    ensures Represents(map_, BakeTempos(tracks), ppq)
  {
    var tempoEvents: seq<TempoEvent> := [];
    for t := 0 to |tracks|
      invariant tempoEvents == Filter(FileTempos(tracks[..t]), Positive)
    {
      assert tracks[..t + 1][..t] == tracks[..t];
      FilterConcat(FileTempos(tracks[..t]), TrackTempos(tracks[t]), Positive);
      var more := PositiveTempos(tracks[t]);
      tempoEvents := tempoEvents + more;
    }
    assert tracks[..|tracks|] == tracks;
    BakeTemposAreUsable(tracks);
    map_ := WalkTempos(Sort(tempoEvents, TickOf), ppq);
  }

  lemma {:induction false} BakeTemposAreUsable(tracks: seq<Track>)
    requires WellFormedTracks(tracks)
    ensures Sorted(BakeTempos(tracks), TickOf)
    ensures forall e :: e in BakeTempos(tracks) ==> Positive(e) && e.tick >= 0
    ensures forall i :: 0 <= i < |BakeTempos(tracks)| ==> Positive(BakeTempos(tracks)[i]) && BakeTempos(tracks)[i].tick >= 0
  {
    var s := Filter(FileTempos(tracks), Positive);
    FileTemposNonNegative(tracks);
    FilterMembers(FileTempos(tracks), Positive);
    SortSorted(s, TickOf);
    SortIsPermutation(s, TickOf);
  }

  // ---- searching and converting ----

  datatype TempoKey = ByTick | ByTime

  function KeyValue(e: Entry, key: TempoKey): real {
    match key case ByTick => e.tick as real case ByTime => e.time
  }

  ghost predicate KeySorted(map_: seq<Entry>, key: TempoKey) {
    forall i, j :: 0 <= i < j < |map_| ==> KeyValue(map_[i], key) < KeyValue(map_[j], key)
  }

  /** The rightmost entry whose key is at most `value`, entry 0 when there is none. */
  function ActiveIndex(map_: seq<Entry>, key: TempoKey, value: real): (i: nat)
    requires map_ != []
    ensures i < |map_|
    ensures i > 0 ==> KeyValue(map_[i], key) <= value
    ensures forall j :: i < j < |map_| ==> value < KeyValue(map_[j], key)
  {
    if |map_| == 1 || KeyValue(map_[|map_| - 1], key) <= value then |map_| - 1
    else ActiveIndex(map_[..|map_| - 1], key, value)
  }

  /** The binary search finds what the linear scan finds. */
  method ActiveTempoEntry(map_: seq<Entry>, key: TempoKey, value: real) returns (e: Entry)
    requires map_ != [] && KeySorted(map_, key)
    ensures e == map_[ActiveIndex(map_, key, value)]
  {
    var lo, hi, ans := 0, |map_| - 1, 0;
    while lo <= hi
      invariant 0 <= lo <= hi + 1 <= |map_|
      invariant 0 <= ans < |map_| && (lo > 0 ==> ans == lo - 1) && (lo == 0 ==> ans == 0)
      invariant forall j :: 0 <= j < lo ==> KeyValue(map_[j], key) <= value
      invariant forall j :: hi < j < |map_| ==> value < KeyValue(map_[j], key)
    {
      var mid := (lo + hi) / 2;
      if KeyValue(map_[mid], key) <= value {
        ans, lo := mid, mid + 1;
      } else {
        hi := mid - 1;
      }
    }
    e := map_[ans];
  }

  function SecondsPerTick(e: Entry, ppq: int): real
    requires ppq > 0
  {
    e.micros as real / Denominator(ppq)
  }

  function TicksToSeconds(ticks: int, map_: seq<Entry>, ppq: int): real
    requires map_ != [] && ppq > 0
  {
    var active := map_[ActiveIndex(map_, ByTick, ticks as real)];
    active.time + (ticks - active.tick) as real * SecondsPerTick(active, ppq)
  }

  function SecondsToTicksExact(seconds: real, map_: seq<Entry>, ppq: int): real
    requires map_ != [] && ppq > 0
    requires forall i :: 0 <= i < |map_| ==> map_[i].micros > 0
  {
    var active := map_[ActiveIndex(map_, ByTime, seconds)];
    active.tick as real + (seconds - active.time) / SecondsPerTick(active, ppq)
  }

  // ---- what the map promises ----

  lemma {:induction false} FractionGrows(a: int, b: int, d: real)
    requires d > 0.0 && a < b
    ensures a as real / d < b as real / d
  {
  }

  lemma {:induction false} ElapsedSecondsGrows(s: seq<TempoEvent>, a: nat, b: nat, ppq: int)
    requires ppq > 0 && a < b && forall e :: e in s ==> Positive(e)
    ensures ElapsedSeconds(s, a, ppq) < ElapsedSeconds(s, b, ppq)
  {
    ElapsedGrows(s, a, b);
    FractionGrows(Elapsed(s, a), Elapsed(s, b), Denominator(ppq));
  }

  /** A map that represents positive tempos starts at (0, 0) and grows strictly in tick and in time. */
  lemma {:induction false} MapIsStrictlyIncreasing(map_: seq<Entry>, s: seq<TempoEvent>, ppq: int)
    requires ppq > 0 && Represents(map_, s, ppq) && forall e :: e in s ==> Positive(e)
    ensures map_[0].tick == 0 && map_[0].time == 0.0
    ensures StrictlyIncreasing(map_)
    ensures KeySorted(map_, ByTick) && KeySorted(map_, ByTime)
  {
    forall i, j | 0 <= i < j < |map_| ensures map_[i].tick < map_[j].tick && map_[i].time < map_[j].time {
      ElapsedSecondsGrows(s, map_[i].tick, map_[j].tick, ppq);
    }
  }

  lemma {:induction false} AddProduct(base: int, k: int, m: int, d: real)
    requires d > 0.0
    ensures (base + k * m) as real / d == base as real / d + k as real * (m as real / d)
  {
    assert (k * m) as real == k as real * m as real;
    ScaleFraction(k as real, m as real, d);
    AddFractions(base as real, (k * m) as real, d);
  }

  /** Between ticks `a` and `b` of one segment, time grows by a constant amount per tick. */
  lemma {:induction false} SegmentTime(map_: seq<Entry>, s: seq<TempoEvent>, ppq: int, i: nat, b: nat)
    requires ppq > 0 && Represents(map_, s, ppq) && i < |map_|
    requires map_[i].tick <= b && (i + 1 < |map_| ==> b <= map_[i + 1].tick)
    ensures ElapsedSeconds(s, b, ppq) == map_[i].time + (b - map_[i].tick) as real * SecondsPerTick(map_[i], ppq)
  {
    var a, m := map_[i].tick, map_[i].micros;
    forall u | a <= u < b ensures MicrosAt(s, u) == m {
      assert CoversTick(map_, s, i, u);
    }
    ElapsedLinear(s, a, b, m);
    AddProduct(Elapsed(s, a), b - a, m, Denominator(ppq));
  }

  /** The conversion through the map yields the reference time: the lengths of all earlier ticks added up. */
  lemma {:induction false} TicksToSecondsIsElapsed(t: nat, map_: seq<Entry>, s: seq<TempoEvent>, ppq: int)
    requires ppq > 0 && Represents(map_, s, ppq)
    ensures TicksToSeconds(t, map_, ppq) == ElapsedSeconds(s, t, ppq)
  {
    SegmentTime(map_, s, ppq, ActiveIndex(map_, ByTick, t as real), t);
  }

  lemma {:induction false} TicksToSecondsGrows(a: nat, b: nat, map_: seq<Entry>, s: seq<TempoEvent>, ppq: int)
    requires ppq > 0 && Represents(map_, s, ppq) && a < b && forall e :: e in s ==> Positive(e)
    ensures TicksToSeconds(a, map_, ppq) < TicksToSeconds(b, map_, ppq)
  {
    TicksToSecondsIsElapsed(a, map_, s, ppq);
    TicksToSecondsIsElapsed(b, map_, s, ppq);
    ElapsedSecondsGrows(s, a, b, ppq);
  }

  lemma {:induction false} QuotientOrder(x: real, k: real, unit: real)
    requires unit > 0.0
    ensures x > k * unit <==> x / unit > k
    ensures x < k * unit <==> x / unit < k
    ensures x == k * unit ==> x / unit == k
  {
    var q := x / unit;
    assert q * unit == x;
    assert (q - k) * unit == x - k * unit;
    if q > k { assert (q - k) * unit > 0.0; }
    if q < k { assert (k - q) * unit > 0.0; }
  }

  lemma {:induction false} SecondsPerTickPositive(e: Entry, ppq: int)
    requires ppq > 0 && e.micros > 0
    ensures SecondsPerTick(e, ppq) > 0.0
  {
  }

  /** The time of tick `n` falls into the segment tick `n` falls into. */
  lemma {:induction false} TimeIsInSegment(n: nat, map_: seq<Entry>, s: seq<TempoEvent>, ppq: int)
    requires ppq > 0 && Represents(map_, s, ppq) && forall e :: e in s ==> Positive(e)
    ensures var j, t := ActiveIndex(map_, ByTick, n as real), TicksToSeconds(n, map_, ppq);
      map_[j].tick <= n && map_[j].time <= t
      && forall k :: j < k < |map_| ==> n < map_[k].tick && t < map_[k].time
  {
    var j := ActiveIndex(map_, ByTick, n as real);
    TicksToSecondsIsElapsed(n, map_, s, ppq);
    if map_[j].tick < n { ElapsedSecondsGrows(s, map_[j].tick, n, ppq); }
    forall k | j < k < |map_| ensures n < map_[k].tick && TicksToSeconds(n, map_, ppq) < map_[k].time {
      ElapsedSecondsGrows(s, n, map_[k].tick, ppq);
    }
  }

  /** An instant of an earlier segment: both its tick and its time lie before the next entry. */
  lemma {:induction false} BeforeNextEntry(seconds: real, map_: seq<Entry>, s: seq<TempoEvent>, ppq: int, i: nat)
    requires ppq > 0 && Represents(map_, s, ppq) && i + 1 < |map_|
    requires seconds < map_[i + 1].time
    ensures map_[i].tick as real + (seconds - map_[i].time) / SecondsPerTick(map_[i], ppq) < map_[i + 1].tick as real
  {
    SecondsPerTickPositive(map_[i], ppq);
    SegmentTime(map_, s, ppq, i, map_[i + 1].tick);
    QuotientOrder(seconds - map_[i].time, (map_[i + 1].tick - map_[i].tick) as real, SecondsPerTick(map_[i], ppq));
  }

  /** The three positions of an instant relative to tick `n`: same segment, later, earlier. */
  lemma {:induction false} OrderFromSegments(n: nat, t: real, seconds: real, e: Entry, ppq: int, same: bool, later: bool, nextTick: int)
    requires ppq > 0 && e.micros > 0
    requires same ==> t == e.time + (n - e.tick) as real * SecondsPerTick(e, ppq)
    requires !same && later ==> e.tick > n && e.time <= seconds && t < seconds
    requires !same && !later ==> (nextTick <= n && seconds < t
      && e.tick as real + (seconds - e.time) / SecondsPerTick(e, ppq) < nextTick as real)
    ensures seconds > t <==> e.tick as real + (seconds - e.time) / SecondsPerTick(e, ppq) > n as real
    ensures seconds == t ==> e.tick as real + (seconds - e.time) / SecondsPerTick(e, ppq) == n as real
  {
    SecondsPerTickPositive(e, ppq);
    if same {
      QuotientOrder(seconds - e.time, (n - e.tick) as real, SecondsPerTick(e, ppq));
    } else if later {
      QuotientOrder(seconds - e.time, 0.0, SecondsPerTick(e, ppq));
    }
  }

  /** How the segment of an instant and the segment of tick `n` lie when they differ. */
  lemma {:induction false} SegmentsApart(n: nat, seconds: real, map_: seq<Entry>, s: seq<TempoEvent>, ppq: int, i: nat, j: nat)
    requires ppq > 0 && Represents(map_, s, ppq) && forall e :: e in s ==> Positive(e)
    requires StrictlyIncreasing(map_)
    requires i == ActiveIndex(map_, ByTime, seconds) && j == ActiveIndex(map_, ByTick, n as real)
    ensures i > j ==> map_[i].tick > n && map_[i].time <= seconds && TicksToSeconds(n, map_, ppq) < seconds
    ensures i < j ==> map_[i + 1].tick <= n && seconds < map_[i + 1].time && seconds < TicksToSeconds(n, map_, ppq)
  {
    hide TicksToSeconds;
    TimeIsInSegment(n, map_, s, ppq);
    if i < j { assert map_[i + 1].tick <= map_[j].tick && map_[i + 1].time <= map_[j].time; }
  }

  lemma {:induction false} SameSide(n: nat, seconds: real, map_: seq<Entry>, s: seq<TempoEvent>, ppq: int)
    requires ppq > 0 && Represents(map_, s, ppq) && forall e :: e in s ==> Positive(e)
    requires StrictlyIncreasing(map_)
    ensures seconds > TicksToSeconds(n, map_, ppq) <==> SecondsToTicksExact(seconds, map_, ppq) > n as real
    ensures seconds == TicksToSeconds(n, map_, ppq) ==> SecondsToTicksExact(seconds, map_, ppq) == n as real
  {
    hide Represents, SecondsPerTick, StrictlyIncreasing;
    AllMicrosPositive(map_, s, ppq);
    var j, i := ActiveIndex(map_, ByTick, n as real), ActiveIndex(map_, ByTime, seconds);
    SegmentsApart(n, seconds, map_, s, ppq, i, j);
    if i < j { BeforeNextEntry(seconds, map_, s, ppq, i); }
    OrderFromSegments(n, TicksToSeconds(n, map_, ppq), seconds, map_[i], ppq, i == j, i > j, if i < j then map_[i + 1].tick else 0);
  }

  lemma {:induction false} AllMicrosPositive(map_: seq<Entry>, s: seq<TempoEvent>, ppq: int)
    requires ppq > 0 && Represents(map_, s, ppq)
    ensures map_ != [] && forall i :: 0 <= i < |map_| ==> map_[i].micros > 0
  {
  }

  /**
   Seconds to ticks inverts ticks to seconds exactly and keeps order: a moment
   lies after tick `n` if and only if its exact tick is greater than `n`.
   */
  lemma {:induction false} SecondsToTicksInverts(n: nat, seconds: real, map_: seq<Entry>, s: seq<TempoEvent>, ppq: int)
    requires ppq > 0 && Represents(map_, s, ppq) && forall e :: e in s ==> Positive(e)
    ensures seconds > TicksToSeconds(n, map_, ppq) <==> SecondsToTicksExact(seconds, map_, ppq) > n as real
    ensures SecondsToTicksExact(TicksToSeconds(n, map_, ppq), map_, ppq) == n as real
  {
    MapIsStrictlyIncreasing(map_, s, ppq);
    SameSide(n, seconds, map_, s, ppq);
    SameSide(n, TicksToSeconds(n, map_, ppq), map_, s, ppq);
  }

  // ---- the unit of time ----

  /** The tempo event at index `i` rules from its tick to before tick `b`: of equal ticks the last counts, and a later one ends it. */
  ghost predicate Rules(s: seq<TempoEvent>, i: int, b: int) {
    0 <= i < |s| && forall j :: 0 <= j < |s| && j != i ==>
      s[j].tick < s[i].tick || s[j].tick >= b || (s[j].tick == s[i].tick && j < i)
  }

  lemma {:induction false} RulingTempo(s: seq<TempoEvent>, i: nat, b: int, t: int)
    requires Rules(s, i, b) && s[i].tick <= t < b
    ensures InForce(s, t) == Some(s[i])
  {
    var n := |s| - 1;
    if i == n {
      EarlierInForce(s[..n], s[n].tick, b, t);
    } else {
      assert Rules(s[..n], i, b) by { forall j | 0 <= j < n ensures s[..n][j] == s[j] {} }
      RulingTempo(s[..n], i, b, t);
      assert s[n].tick < s[i].tick || s[n].tick >= b;
    }
  }

  /** Events up to tick `at`, or from `b` on: what is in force between the two is not after `at`. */
  lemma {:induction false} EarlierInForce(s: seq<TempoEvent>, at: int, b: int, t: int)
    requires t < b && forall j :: 0 <= j < |s| ==> s[j].tick <= at || s[j].tick >= b
    ensures InForce(s, t).Some? ==> InForce(s, t).value.tick <= at
  {
    InForceIsMember(s, t);
    if InForce(s, t).Some? {
      var j :| 0 <= j < |s| && s[j] == InForce(s, t).value;
    }
  }

  lemma {:induction false} NoTempoYet(s: seq<TempoEvent>, t: int)
    requires forall j :: 0 <= j < |s| ==> s[j].tick > t
    ensures InForce(s, t) == None
  {
    if s != [] { NoTempoYet(s[..|s| - 1], t); }
  }

  /** A time in seconds: microseconds for each of `ppq` ticks. */
  lemma {:induction false} InSeconds(a: int, b: int, ppq: int)
    requires ppq > 0
    ensures b as real / Denominator(ppq) - a as real / Denominator(ppq) == (b - a) as real / (ppq as real * 1000000.0)
  {
    AddFractions(a as real, (b - a) as real, Denominator(ppq));
  }

  /** Under one tempo of `m` microseconds a beat, a stretch of ticks lasts as long as its beats: `m` microseconds for each `ppq` ticks. */
  lemma {:induction false} TimeUnderTempo(s: seq<TempoEvent>, i: nat, a: nat, b: nat, ppq: int)
    requires ppq > 0 && a <= b && Rules(s, i, b) && s[i].tick <= a
    ensures ElapsedSeconds(s, b, ppq) - ElapsedSeconds(s, a, ppq) == ((b - a) * s[i].micros) as real / (ppq as real * 1000000.0)
  {
    forall u | a <= u < b ensures MicrosAt(s, u) == s[i].micros { RulingTempo(s, i, b, u); }
    ElapsedLinear(s, a, b, s[i].micros);
    InSeconds(Elapsed(s, a), Elapsed(s, b), ppq);
  }

  /** Up to the first tempo event a beat lasts half a second. */
  lemma {:induction false} TimeBeforeTempos(s: seq<TempoEvent>, n: nat, ppq: int)
    requires ppq > 0 && forall j :: 0 <= j < |s| ==> s[j].tick >= n
    ensures ElapsedSeconds(s, n, ppq) == (n * 500000) as real / (ppq as real * 1000000.0)
  {
    forall u | 0 <= u < n ensures MicrosAt(s, u) == 500000 { NoTempoYet(s, u); }
    ElapsedLinear(s, 0, n, 500000);
    InSeconds(0, Elapsed(s, n), ppq);
  }

  /** So does the conversion through the map: between two ticks under one tempo, and before the first tempo. */
  lemma {:induction false} SecondsUnderTempo(map_: seq<Entry>, s: seq<TempoEvent>, i: nat, a: nat, b: nat, ppq: int)
    requires ppq > 0 && Represents(map_, s, ppq) && a <= b && Rules(s, i, b) && s[i].tick <= a
    ensures TicksToSeconds(b, map_, ppq) - TicksToSeconds(a, map_, ppq) == ((b - a) * s[i].micros) as real / (ppq as real * 1000000.0)
  {
    TicksToSecondsIsElapsed(a, map_, s, ppq);
    TicksToSecondsIsElapsed(b, map_, s, ppq);
    hide *;
    TimeUnderTempo(s, i, a, b, ppq);
  }

  lemma {:induction false} SecondsBeforeTempos(map_: seq<Entry>, s: seq<TempoEvent>, n: nat, ppq: int)
    requires ppq > 0 && Represents(map_, s, ppq) && forall j :: 0 <= j < |s| ==> s[j].tick >= n
    ensures TicksToSeconds(n, map_, ppq) == (n * 500000) as real / (ppq as real * 1000000.0)
  {
    TicksToSecondsIsElapsed(n, map_, s, ppq);
    hide *;
    TimeBeforeTempos(s, n, ppq);
  }

  /** One beat without any tempo event lasts half a second. */
  lemma {:induction false} OneBeatIsHalfASecond(map_: seq<Entry>)
    requires Represents(map_, [], 480)
    ensures TicksToSeconds(480, map_, 480) == 0.5 && ElapsedSeconds([], 480, 480) == 0.5
  {
    SecondsBeforeTempos(map_, [], 480, 480);
    TimeBeforeTempos([], 480, 480);
  }
}
