/**
 MIDI tracks as the parser delivers them: events carrying the time since the
 previous event. The baker works on absolute ticks and converts back at the end.
 */
module Midi {

  datatype Body =
    | NoteOn(channel: int, note: int, velocity: int)
    | NoteOff(channel: int, note: int, velocity: int)
    | Controller(channel: int, controllerType: int, value: int)
    | SetTempo(micros: int)
    | EndOfTrack
    | Other(kind: string)

  datatype Event = Event(delta: int, body: Body)
  datatype Timed = Timed(tick: int, body: Body)

  type Track = seq<Event>

  datatype Header = Header(ticksPerBeat: int)
  datatype File = File(header: Header, tracks: seq<Track>)

  const DEFAULT_PPQ := 480
  const DEFAULT_MICROS := 500000

  /** A note-on with velocity 0 is a note-off in disguise. */
  predicate IsNoteOn(b: Body) { b.NoteOn? && b.velocity > 0 }
  predicate IsNoteOff(b: Body) { b.NoteOff? || (b.NoteOn? && b.velocity == 0) }

  predicate NonNegativeDeltas(track: Track) { forall i :: 0 <= i < |track| ==> track[i].delta >= 0 }

  /** The tick reached after the last event. */
  function EndTick(track: Track): (t: int)
    ensures NonNegativeDeltas(track) ==> t >= 0
  {
    if track == [] then 0 else EndTick(track[..|track| - 1]) + track[|track| - 1].delta
  }

  function Absolute(track: Track): (r: seq<Timed>)
    ensures |r| == |track|
  {
    if track == [] then []
    else Absolute(track[..|track| - 1]) + [Timed(EndTick(track), track[|track| - 1].body)]
  }

  /** The inverse: each event's distance from its predecessor. */
  function Relative(timed: seq<Timed>): (r: Track)
    ensures |r| == |timed|
  {
    if timed == [] then []
    else
      var n := |timed| - 1;
      Relative(timed[..n]) + [Event(timed[n].tick - (if n == 0 then 0 else timed[n - 1].tick), timed[n].body)]
  }

  lemma {:induction false} AbsoluteAt(track: Track, i: nat)
    requires i < |track|
    ensures Absolute(track)[i] == Timed(EndTick(track[..i + 1]), track[i].body)
  {
    if i < |track| - 1 {
      AbsoluteAt(track[..|track| - 1], i);
      assert track[..|track| - 1][..i + 1] == track[..i + 1];
    } else {
      assert track[..i + 1] == track;
    }
  }

  lemma {:induction false} AbsoluteSnoc(track: Track, i: nat)
    requires i < |track|
    ensures EndTick(track[..i + 1]) == EndTick(track[..i]) + track[i].delta
    ensures Absolute(track[..i + 1]) == Absolute(track[..i]) + [Timed(EndTick(track[..i + 1]), track[i].body)]
  {
    assert track[..i + 1][..i] == track[..i];
  }

  lemma {:induction false} EndTickMonotone(track: Track, i: nat, j: nat)
    requires NonNegativeDeltas(track) && i <= j <= |track|
    ensures 0 <= EndTick(track[..i]) <= EndTick(track[..j])
    decreases j - i
  {
    if i < j {
      EndTickMonotone(track, i, j - 1);
      assert track[..j][..j - 1] == track[..j - 1];
    }
  }

  lemma {:induction false} AbsoluteIsOrdered(track: Track)
    requires NonNegativeDeltas(track)
    ensures forall i, j :: 0 <= i < j < |track| ==> 0 <= Absolute(track)[i].tick <= Absolute(track)[j].tick
    ensures forall i :: 0 <= i < |track| ==> 0 <= Absolute(track)[i].tick <= EndTick(track)
  {
    forall i | 0 <= i < |track| ensures 0 <= Absolute(track)[i].tick <= EndTick(track) {
      AbsoluteAt(track, i);
      EndTickMonotone(track, i + 1, |track|);
      assert track[..|track|] == track;
    }
    forall i, j | 0 <= i < j < |track| ensures 0 <= Absolute(track)[i].tick <= Absolute(track)[j].tick {
      AbsoluteAt(track, i);
      AbsoluteAt(track, j);
      EndTickMonotone(track, i + 1, j + 1);
    }
  }

  lemma {:induction false} EndTickOfRelative(timed: seq<Timed>)
    ensures EndTick(Relative(timed)) == if timed == [] then 0 else timed[|timed| - 1].tick
  {
    if timed != [] {
      EndTickOfRelative(timed[..|timed| - 1]);
    }
  }

  lemma {:induction false} AbsoluteOfRelative(timed: seq<Timed>)
    ensures Absolute(Relative(timed)) == timed
  {
    if timed != [] {
      AbsoluteOfRelative(timed[..|timed| - 1]);
      EndTickOfRelative(timed);
    }
  }

  lemma {:induction false} RelativeOfAbsolute(track: Track)
    ensures Relative(Absolute(track)) == track
  {
    if track != [] {
      var init := track[..|track| - 1];
      RelativeOfAbsolute(init);
      if init != [] { AbsoluteAt(init, |init| - 1); assert init[..|init|] == init; }
    }
  }

  lemma {:induction false} RelativeDeltas(timed: seq<Timed>, i: nat)
    requires i < |timed|
    ensures Relative(timed)[i] == Event(timed[i].tick - (if i == 0 then 0 else timed[i - 1].tick), timed[i].body)
  {
    if i < |timed| - 1 { RelativeDeltas(timed[..|timed| - 1], i); }
  }
}
