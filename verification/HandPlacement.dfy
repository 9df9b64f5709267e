/**
 Where hand-position controllers land. A planner emits a controller a moment
 before or after a note; rounding must keep it on its side of that note, through
 the conversion to ticks and through the merge.
 */
module HandPlacement {
  import opened Midi
  import opened StableSort
  import opened TempoMap
  import opened TrackMerge

  /** Smallest integer not below `x`, and rounding to the nearest integer with halves upwards. */
  function Ceil(x: real): int { -(-x).Floor }
  function Round(x: real): int { (x + 0.5).Floor }

  function CcEventTick(time: real, post: bool, map_: seq<Entry>, ppq: int): (t: int)
    requires map_ != [] && ppq > 0
    requires forall i :: 0 <= i < |map_| ==> map_[i].micros > 0
    ensures t >= 0
  {
    var raw := SecondsToTicksExact(time, map_, ppq);
    var tick := if post then Ceil(raw) else Round(raw);
    if tick > 0 then tick else 0
  }

  /** A 'post' controller timed after the note at tick `n` gets a later tick; any other timed at or before it does not. */
  lemma {:induction false} CcStaysOnItsSide(n: nat, time: real, post: bool, map_: seq<Entry>, s: seq<TempoEvent>, ppq: int)
    requires ppq > 0 && Represents(map_, s, ppq) && forall e :: e in s ==> Positive(e)
    ensures post && time > TicksToSeconds(n, map_, ppq) ==> CcEventTick(time, post, map_, ppq) >= n + 1
    ensures !post && time <= TicksToSeconds(n, map_, ppq) ==> CcEventTick(time, post, map_, ppq) <= n
  {
    SecondsToTicksInverts(n, time, map_, s, ppq);
  }

  /** The tick is the nearest one, halves upwards; for 'post' the first one not before the time. Before tick 0 it is 0. */
  lemma {:induction false} CcTickIsNearest(time: real, post: bool, map_: seq<Entry>, ppq: int)
    requires map_ != [] && ppq > 0 && forall i :: 0 <= i < |map_| ==> map_[i].micros > 0
    ensures var raw, tick := SecondsToTicksExact(time, map_, ppq), CcEventTick(time, post, map_, ppq);
      && (raw >= 0.0 && post ==> tick as real - 1.0 < raw <= tick as real)
      && (raw >= 0.0 && !post ==> tick as real - 0.5 <= raw < tick as real + 0.5)
      && (raw < 0.0 ==> tick == 0)
  {
    hide SecondsToTicksExact;
  }

  /** A controller timed at a tick gets that tick, whatever its placement. */
  lemma {:induction false} CcTickOfTick(n: nat, post: bool, map_: seq<Entry>, s: seq<TempoEvent>, ppq: int)
    requires ppq > 0 && Represents(map_, s, ppq) && forall e :: e in s ==> Positive(e)
    ensures CcEventTick(TicksToSeconds(n, map_, ppq), post, map_, ppq) == n
  {
    SecondsToTicksInverts(n, 0.0, map_, s, ppq);
    AllMicrosPositive(map_, s, ppq);
    CcTickIsNearest(TicksToSeconds(n, map_, ppq), post, map_, ppq);
    hide *;
  }

  /** The merge puts a controller of a later tick behind a note of tick `n`, and one of tick `n` or earlier in front of it. */
  lemma {:induction false} MergedSides(track: Track, ccs: seq<CcEvent>, drop: set<int>, n: int, i: nat, j: nat)
    requires i < |Absolute(Merge(track, ccs, drop))| && j < |Absolute(Merge(track, ccs, drop))|
    requires var r := Absolute(Merge(track, ccs, drop));
      r[i].body.Controller? && (r[j].body.NoteOn? || r[j].body.NoteOff?) && r[j].tick == n
    ensures if Absolute(Merge(track, ccs, drop))[i].tick > n then j < i else i < j
  {
    var r := Absolute(Merge(track, ccs, drop));
    hide Absolute, Merge;
    MergedIsSorted(track, ccs, drop);
    if r[i].tick > n { SortedPosition(r, j, i); } else { SortedPosition(r, i, j); }
  }

  /**
   Hand placement survives baking. A controller of the merged track at the tick
   computed for `time` and a note event of tick `n` end up in the order their times
   prescribe.
   */
  lemma {:induction false} HandCcSurvivesBake(track: Track, ccs: seq<CcEvent>, drop: set<int>, n: nat, time: real, post: bool,
                                              map_: seq<Entry>, s: seq<TempoEvent>, ppq: int, i: nat, j: nat)
    requires ppq > 0 && Represents(map_, s, ppq) && forall e :: e in s ==> Positive(e)
    requires i < |Absolute(Merge(track, ccs, drop))| && j < |Absolute(Merge(track, ccs, drop))|
    requires var r := Absolute(Merge(track, ccs, drop));
      && r[i].body.Controller? && r[i].tick == CcEventTick(time, post, map_, ppq)
      && (r[j].body.NoteOn? || r[j].body.NoteOff?) && r[j].tick == n
    ensures post && time > TicksToSeconds(n, map_, ppq) ==> j < i
    ensures !post && time <= TicksToSeconds(n, map_, ppq) ==> i < j
  {
    CcStaysOnItsSide(n, time, post, map_, s, ppq);
    hide Merge, Absolute, CcEventTick, TicksToSeconds, Represents;
    MergedSides(track, ccs, drop, n, i, j);
  }
}
