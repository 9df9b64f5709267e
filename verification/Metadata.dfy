/**
 The metadata extracted at upload: a second, independent walk over the tempo
 events that must agree with the baker's tempo map.
 */
module Metadata {
  import opened Midi
  import opened StableSort
  import opened TempoMap

  /** The parser's pulses per quarter note, and the baker's. */
  function ParserPpq(h: Header): int { if h.ticksPerBeat > 0 then h.ticksPerBeat else DEFAULT_PPQ }
  function BakerPpq(h: Header): int { if h.ticksPerBeat != 0 then h.ticksPerBeat else DEFAULT_PPQ }

  function TotalTicks(tracks: seq<Track>): (t: int)
    ensures t >= 0
  {
    if tracks == [] then 0 else
      var before, last := TotalTicks(tracks[..|tracks| - 1]), EndTick(tracks[|tracks| - 1]);
      if before >= last then before else last
  }

  /** The displayed tempo: the first tempo event in file order, 120 BPM without a finite one. */
  function DisplayTempo(tempos: seq<TempoEvent>): real {
    if tempos == [] || tempos[0].micros == 0 then 120.0 else 60000000.0 / tempos[0].micros as real
  }

  /** The length of a file is that of its longest track. */
  lemma {:induction false} LongestTrack(tracks: seq<Track>)
    ensures forall t :: 0 <= t < |tracks| ==> EndTick(tracks[t]) <= TotalTicks(tracks)
    ensures TotalTicks(tracks) == 0 || exists t :: 0 <= t < |tracks| && EndTick(tracks[t]) == TotalTicks(tracks)
  {
    if tracks != [] {
      var init, n := tracks[..|tracks| - 1], |tracks| - 1;
      LongestTrack(init);
      forall t | 0 <= t < n ensures EndTick(tracks[t]) <= TotalTicks(tracks) { assert init[t] == tracks[t]; }
      if TotalTicks(tracks) != EndTick(tracks[n]) && TotalTicks(init) != 0 {
        var t :| 0 <= t < |init| && EndTick(init[t]) == TotalTicks(init);
        assert EndTick(tracks[t]) == TotalTicks(tracks);
      }
    }
  }

  /** Beats per minute times microseconds per beat make a minute. */
  lemma {:induction false} TempoOfMinute(tempos: seq<TempoEvent>)
    ensures tempos != [] && tempos[0].micros != 0 ==> DisplayTempo(tempos) * tempos[0].micros as real == 60000000.0
    ensures tempos == [] || tempos[0].micros == 0 ==> DisplayTempo(tempos) == 120.0
  {
  }

  /** Drops an event that repeats the last one kept. */
  function Dedup(s: seq<TempoEvent>): seq<TempoEvent> {
    if s == [] then [] else
      var kept, te := Dedup(s[..|s| - 1]), s[|s| - 1];
      if kept != [] && kept[|kept| - 1] == te then kept else kept + [te]
  }

  lemma {:induction false} DedupKeepsTempo(s: seq<TempoEvent>, t: int)
    ensures InForce(Dedup(s), t) == InForce(s, t)
    ensures forall e :: e in Dedup(s) <==> e in s
  {
    if s != [] {
      var init, te := s[..|s| - 1], s[|s| - 1];
      DedupKeepsTempo(init, t);
      var kept := Dedup(init);
      assert s == init + [te];
      if kept != [] && kept[|kept| - 1] == te {
        InForceIsMember(kept[..|kept| - 1], t);
      } else {
        assert (kept + [te])[..|kept|] == kept;
      }
    }
  }

  lemma {:induction false} DedupIsSorted(s: seq<TempoEvent>)
    requires Sorted(s, TickOf)
    ensures Sorted(Dedup(s), TickOf)
  {
    if s != [] {
      var init, te := s[..|s| - 1], s[|s| - 1];
      DedupIsSorted(init);
      DedupKeepsTempo(init, 0);
      assert Dedup(s) == Dedup(init) || Dedup(s) == Dedup(init) + [te];
      hide Dedup;
      forall e | e in Dedup(init) ensures e.tick <= te.tick {
        assert e in init;
        var i :| 0 <= i < |init| && init[i] == e;
        assert TickOf(s[i]) <= TickOf(te);
      }
      SortedSnoc(Dedup(init), te);
    }
  }

  lemma {:induction false} SortedSnoc(s: seq<TempoEvent>, te: TempoEvent)
    requires Sorted(s, TickOf) && forall e :: e in s ==> e.tick <= te.tick
    ensures Sorted(s + [te], TickOf)
  {
  }

  lemma {:induction false} TrackTemposWithinTrack(track: Track)
    requires NonNegativeDeltas(track)
    ensures forall e :: e in TrackTempos(track) ==> 0 <= e.tick <= EndTick(track)
  {
    if track != [] { TrackTemposWithinTrack(track[..|track| - 1]); }
  }

  lemma {:induction false} TemposWithinTotal(tracks: seq<Track>)
    requires WellFormedTracks(tracks)
    ensures forall e :: e in FileTempos(tracks) ==> 0 <= e.tick <= TotalTicks(tracks)
  {
    if tracks != [] {
      TemposWithinTotal(tracks[..|tracks| - 1]);
      TrackTemposWithinTrack(tracks[|tracks| - 1]);
    }
  }

  /** The tempo events of one track; `first` is the tempo to display so far, `none` whether no tempo was seen before. */
  method CollectTrackTempos(track: Track, first: real, none: bool) returns (tempos: seq<TempoEvent>, firstTempo: real)
    requires none ==> first == 120.0
    ensures tempos == TrackTempos(track)
    ensures firstTempo == if none then DisplayTempo(tempos) else first
  {
    tempos, firstTempo := [], first;
    var trackTicks := 0;
    for i := 0 to |track|
      invariant trackTicks == EndTick(track[..i])
      invariant tempos == TrackTempos(track[..i])
      invariant firstTempo == if none then DisplayTempo(tempos) else first
    {
      var ev := track[i];
      trackTicks := trackTicks + ev.delta;
      AbsoluteSnoc(track, i);
      TrackTemposSnoc(track, i);
      if ev.body.SetTempo? {
        if none && |tempos| == 0 && ev.body.micros != 0 { firstTempo := 60000000.0 / ev.body.micros as real; }
        tempos := tempos + [TempoEvent(trackTicks, ev.body.micros)];
      }
    }
    assert track[..|track|] == track;
  }

  /** All tempo events in file order, the first one remembered on the way. */
  method CollectTempos(tracks: seq<Track>) returns (tempoEvents: seq<TempoEvent>, firstTempo: real)
    ensures tempoEvents == FileTempos(tracks)
    ensures firstTempo == DisplayTempo(tempoEvents)
  {
    tempoEvents, firstTempo := [], 120.0;
    for t := 0 to |tracks|
      invariant tempoEvents == FileTempos(tracks[..t]) && firstTempo == DisplayTempo(tempoEvents)
    {
      assert tracks[..t + 1][..t] == tracks[..t];
      var more, first := CollectTrackTempos(tracks[t], firstTempo, |tempoEvents| == 0);
      tempoEvents, firstTempo := tempoEvents + more, first;
    }
    assert tracks[..|tracks|] == tracks;
  }

  method CountTicks(tracks: seq<Track>) returns (totalTicks: int)
    ensures totalTicks == TotalTicks(tracks)
  {
    totalTicks := 0;
    for t := 0 to |tracks|
      invariant totalTicks == TotalTicks(tracks[..t])
    {
      assert tracks[..t + 1][..t] == tracks[..t];
      var track := tracks[t];
      var trackTicks := 0;
      for i := 0 to |track|
        invariant trackTicks == EndTick(track[..i])
      {
        trackTicks := trackTicks + track[i].delta;
        AbsoluteSnoc(track, i);
      }
      assert track[..|track|] == track;
      totalTicks := if totalTicks >= trackTicks then totalTicks else trackTicks;
    }
    assert tracks[..|tracks|] == tracks;
  }

  /** The walk after the events in `s`: time of `lastTick`, and the tempo in force from there on. */
  ghost predicate Reached(s: seq<TempoEvent>, ppq: int, lastTick: int, seconds: real, current: int)
    requires ppq > 0
  {
    && lastTick >= 0 && seconds == ElapsedSeconds(s, lastTick, ppq)
    && (forall x :: x in s ==> x.tick <= lastTick)
    && (forall t :: t >= lastTick ==> MicrosAt(s, t) == current)
  }

  lemma {:induction false} ReachNext(s: seq<TempoEvent>, e: TempoEvent, ppq: int, lastTick: int, seconds: real, current: int)
    requires ppq > 0 && Reached(s, ppq, lastTick, seconds, current) && lastTick <= e.tick
    ensures Reached(s + [e], ppq, e.tick, seconds + ((e.tick - lastTick) * current) as real / Denominator(ppq), e.micros)
  {
    AdvanceTime(s, e, ppq, lastTick, current);
    forall t | t >= e.tick ensures MicrosAt(s + [e], t) == e.micros { MicrosAtSnoc(s, e, t); }
  }

  lemma {:induction false} ReachEnd(s: seq<TempoEvent>, n: nat, ppq: int, lastTick: int, seconds: real, current: int)
    requires ppq > 0 && Reached(s, ppq, lastTick, seconds, current) && lastTick <= n
    ensures seconds + ((n - lastTick) * current) as real / Denominator(ppq) == ElapsedSeconds(s, n, ppq)
  {
    ElapsedLinear(s, lastTick, n, current);
    AddFractions(Elapsed(s, lastTick) as real, ((n - lastTick) * current) as real, Denominator(ppq));
  }

  /** The tempo walk that yields the duration. */
  method WalkDuration(deduped: seq<TempoEvent>, totalTicks: nat, ppq: int) returns (seconds: real)
    requires ppq > 0 && Sorted(deduped, TickOf)
    requires forall i :: 0 <= i < |deduped| ==> 0 <= deduped[i].tick <= totalTicks
    ensures seconds == ElapsedSeconds(deduped, totalTicks, ppq)
  {
    hide Reached;
    seconds := 0.0;
    var lastTick, current := 0, DEFAULT_MICROS;
    assert deduped[..0] == [];
    assert Reached([], ppq, lastTick, seconds, current) by { ReachStart(ppq); }
    for i := 0 to |deduped|
      invariant lastTick == if i == 0 then 0 else deduped[i - 1].tick
      invariant Reached(deduped[..i], ppq, lastTick, seconds, current)
    {
      var te := deduped[i];
      if i > 0 { assert TickOf(deduped[i - 1]) <= TickOf(te); }
      var deltaTicks := te.tick - lastTick;
      ReachNext(deduped[..i], te, ppq, lastTick, seconds, current);
      assert deduped[..i + 1] == deduped[..i] + [te];
      seconds := seconds + (deltaTicks * current) as real / Denominator(ppq);
      lastTick := te.tick;
      current := te.micros;
    }
    assert deduped[..|deduped|] == deduped;
    ReachEnd(deduped, totalTicks, ppq, lastTick, seconds, current);
    var remainingTicks := if totalTicks - lastTick >= 0 then totalTicks - lastTick else 0;
    seconds := seconds + (remainingTicks * current) as real / Denominator(ppq);
  }

  lemma {:induction false} ReachStart(ppq: int)
    requires ppq > 0
    ensures Reached([], ppq, 0, 0.0, DEFAULT_MICROS)
  {
    assert ElapsedSeconds([], 0, ppq) == 0.0;
  }

  lemma {:induction false} DedupedElapsed(s: seq<TempoEvent>, n: nat)
    ensures Elapsed(Dedup(Sort(s, TickOf)), n) == Elapsed(s, n)
  {
    forall u | 0 <= u < n ensures MicrosAt(Dedup(Sort(s, TickOf)), u) == MicrosAt(s, u) {
      DedupKeepsTempo(Sort(s, TickOf), u);
      InForceOfSort(s, u);
    }
    ElapsedAgrees(Dedup(Sort(s, TickOf)), s, n);
  }

  /**
   The metadata of a file. The duration is the reference time of the last tick,
   whatever order, repetition or collision the tempo events come in. Without tempo
   events every beat takes half a second; with one in force from the start, its time.
   */
  method ExtractMetadata(file: File) returns (tempo: real, duration: real, totalTicks: int)
    requires WellFormedTracks(file.tracks)
    ensures totalTicks == TotalTicks(file.tracks)
    ensures duration == ElapsedSeconds(FileTempos(file.tracks), totalTicks, ParserPpq(file.header))
    ensures tempo == DisplayTempo(FileTempos(file.tracks))
    ensures LastsAsTold(duration, FileTempos(file.tracks), totalTicks,
                        if file.header.ticksPerBeat > 0 then file.header.ticksPerBeat else 480)
  {
    hide LastsAsTold;
    var ppq := ParserPpq(file.header);
    var tempoEvents, firstTempo := CollectTempos(file.tracks);
    var sorted := Sort(tempoEvents, TickOf);
    var deduped: seq<TempoEvent> := [];
    for i := 0 to |sorted|
      invariant deduped == Dedup(sorted[..i])
    {
      assert sorted[..i + 1][..i] == sorted[..i];
      var te := sorted[i];
      if |deduped| == 0 || deduped[|deduped| - 1].tick != te.tick || deduped[|deduped| - 1].micros != te.micros {
        deduped := deduped + [te];
      }
    }
    assert sorted[..|sorted|] == sorted;
    totalTicks := CountTicks(file.tracks);
    UsableDeduped(file.tracks);
    duration := WalkDuration(deduped, totalTicks, ppq);
    DedupedElapsed(tempoEvents, totalTicks);
    tempo := firstTempo;
    DurationByTempo(tempoEvents, totalTicks, ppq);
  }

  /** Without tempo events, `seconds` is half a second for each beat of `n` ticks; with one in force from the start, its time. */
  ghost predicate LastsAsTold(seconds: real, tempos: seq<TempoEvent>, n: nat, beat: int)
    requires beat > 0
  {
    && (tempos == [] ==> seconds == (n * 500000) as real / (beat as real * 1000000.0))
    && forall i :: Rules(tempos, i, n) && tempos[i].tick == 0 ==> seconds == (n * tempos[i].micros) as real / (beat as real * 1000000.0)
  }

  lemma {:induction false} DurationByTempo(tempos: seq<TempoEvent>, n: nat, ppq: int)
    requires ppq > 0
    ensures LastsAsTold(ElapsedSeconds(tempos, n, ppq), tempos, n, ppq)
  {
    if tempos == [] { TimeBeforeTempos(tempos, n, ppq); }
    forall i | Rules(tempos, i, n) && tempos[i].tick == 0
      ensures ElapsedSeconds(tempos, n, ppq) == (n * tempos[i].micros) as real / (ppq as real * 1000000.0)
    {
      TimeUnderTempo(tempos, i, 0, n, ppq);
      assert ElapsedSeconds(tempos, 0, ppq) == 0.0;
    }
  }

  lemma {:induction false} UsableDeduped(tracks: seq<Track>)
    requires WellFormedTracks(tracks)
    ensures var d := Dedup(Sort(FileTempos(tracks), TickOf));
      Sorted(d, TickOf) && forall i :: 0 <= i < |d| ==> 0 <= d[i].tick <= TotalTicks(tracks)
  {
    var s := FileTempos(tracks);
    SortSorted(s, TickOf);
    SortIsPermutation(s, TickOf);
    DedupIsSorted(Sort(s, TickOf));
    DedupKeepsTempo(Sort(s, TickOf), 0);
    TemposWithinTotal(tracks);
    var d := Dedup(Sort(s, TickOf));
    forall i | 0 <= i < |d| ensures 0 <= d[i].tick <= TotalTicks(tracks) { assert d[i] in s; }
  }

  // ---- agreement with the baker ----

  /** Where the tempo in force is positive, dropping the other tempo events changes nothing. */
  lemma {:induction false} PositiveInForce(s: seq<TempoEvent>, t: int)
    ensures var w, p := InForce(s, t), InForce(Filter(s, Positive), t);
      && (w.None? || Positive(w.value) ==> p == w)
      && (p.Some? ==> w.Some? && Positive(p.value) && p.value.tick <= w.value.tick)
  {
    if s != [] {
      PositiveInForce(s[..|s| - 1], t);
      var f := Filter(s[..|s| - 1], Positive);
      assert (f + [s[|s| - 1]])[..|f|] == f;
    }
  }

  ghost predicate AlwaysPositive(s: seq<TempoEvent>, n: nat) {
    forall u :: 0 <= u < n ==> MicrosAt(s, u) > 0
  }

  lemma {:induction false} PositiveElapsed(s: seq<TempoEvent>, n: nat)
    requires forall e :: e in s ==> e.micros >= 0
    ensures Elapsed(s, n) <= Elapsed(Filter(s, Positive), n)
    ensures Elapsed(s, n) == Elapsed(Filter(s, Positive), n) <==> AlwaysPositive(s, n)
  {
    if n > 0 {
      PositiveElapsed(s, n - 1);
      PositiveInForce(s, n - 1);
      InForceIsMember(s, n - 1);
      assert MicrosAt(s, n - 1) >= 0;
    }
  }

  lemma {:induction false} EqualFractions(a: int, b: int, d: real)
    requires d > 0.0
    ensures a as real / d == b as real / d <==> a == b
  {
    if a < b { FractionGrows(a, b, d); }
    if b < a { FractionGrows(b, a, d); }
  }

  /**
   The stored duration equals the baker's time of the last tick if and only if no
   zero tempo is in force anywhere before it (the baker skips zero tempos, the
   metadata walk does not). In particular it does for files with positive tempos.
   */
  lemma {:induction false} DurationMatchesBaker(file: File, map_: seq<Entry>)
    requires WellFormedTracks(file.tracks) && file.header.ticksPerBeat >= 0
    requires forall e :: e in FileTempos(file.tracks) ==> e.micros >= 0
    requires Represents(map_, BakeTempos(file.tracks), BakerPpq(file.header))
    ensures var n := TotalTicks(file.tracks);
      ElapsedSeconds(FileTempos(file.tracks), n, ParserPpq(file.header)) == TicksToSeconds(n, map_, BakerPpq(file.header))
      <==> AlwaysPositive(FileTempos(file.tracks), n)
  {
    var s, n, ppq := FileTempos(file.tracks), TotalTicks(file.tracks), BakerPpq(file.header);
    TicksToSecondsIsElapsed(n, map_, BakeTempos(file.tracks), ppq);
    forall u | 0 <= u < n ensures MicrosAt(BakeTempos(file.tracks), u) == MicrosAt(Filter(s, Positive), u) {
      InForceOfSort(Filter(s, Positive), u);
    }
    ElapsedAgrees(BakeTempos(file.tracks), Filter(s, Positive), n);
    PositiveElapsed(s, n);
    EqualFractions(Elapsed(s, n), Elapsed(Filter(s, Positive), n), Denominator(ppq));
  }

  lemma {:induction false} PositiveTemposSuffice(s: seq<TempoEvent>, n: nat)
    requires forall e :: e in s ==> Positive(e)
    ensures AlwaysPositive(s, n)
  {
    forall u | 0 <= u < n ensures MicrosAt(s, u) > 0 { InForceIsMember(s, u); }
  }

  /** One beat of 480 ticks at tempo 0: metadata says it takes no time, the baker takes it at 120 BPM. */
  function ZeroTempoFile(): File {
    File(Header(480), [[Event(0, SetTempo(0)), Event(480, EndOfTrack)]])
  }

  lemma {:induction false} ZeroTempos(track: Track)
    requires track == [Event(0, SetTempo(0)), Event(480, EndOfTrack)]
    ensures TrackTempos(track) == [TempoEvent(0, 0)] && EndTick(track) == 480
  {
    TrackTemposSnoc(track, 0);
    TrackTemposSnoc(track, 1);
    AbsoluteSnoc(track, 0);
    AbsoluteSnoc(track, 1);
    assert track[..2] == track && track[..0] == [];
  }

  lemma {:induction false} ZeroTempoFacts(tracks: seq<Track>)
    requires tracks == ZeroTempoFile().tracks
    ensures WellFormedTracks(tracks) && FileTempos(tracks) == [TempoEvent(0, 0)] && TotalTicks(tracks) == 480
    ensures MicrosAt([TempoEvent(0, 0)], 0) == 0
  {
    ZeroTempos(tracks[0]);
    assert tracks[..0] == [];
    MicrosAtSnoc([], TempoEvent(0, 0), 0);
  }

  lemma {:induction false} ZeroTempoDisagrees(map_: seq<Entry>)
    requires Represents(map_, BakeTempos(ZeroTempoFile().tracks), 480)
    ensures TotalTicks(ZeroTempoFile().tracks) == 480
    ensures ElapsedSeconds(FileTempos(ZeroTempoFile().tracks), 480, 480) != TicksToSeconds(480, map_, 480)
  {
    var file := ZeroTempoFile();
    ZeroTempoFacts(file.tracks);
    hide Represents, BakeTempos, ElapsedSeconds, TicksToSeconds, FileTempos, TotalTicks, WellFormedTracks, MicrosAt, ZeroTempoFile;
    DurationMatchesBaker(file, map_);
  }
}
