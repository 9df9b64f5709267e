/**
 The whole bake of one file: per track, drop the disabled notes and merge the
 generated controllers. The generators (tablature and hand planners) are inputs.
 */
module Bake {
  import opened Midi
  import opened StableSort
  import opened NoteBalance
  import opened TrackMerge
  import opened Rebake
  import opened MergedEvents

  function BakeTrack(track: Track, ccs: seq<CcEvent>, overrides: Overrides): Track {
    var drop := DroppedIndices(Absolute(track), overrides);
    if ccs == [] && drop == {} then track else Merge(track, ccs, drop)
  }

  function CcsOf(ccByTrack: map<int, seq<CcEvent>>, t: int): seq<CcEvent> {
    if t in ccByTrack then ccByTrack[t] else []
  }

  function BakeTracks(tracks: seq<Track>, ccByTrack: map<int, seq<CcEvent>>, overrides: Overrides): seq<Track> {
    if tracks == [] then []
    else
      var n := |tracks| - 1;
      BakeTracks(tracks[..n], ccByTrack, overrides) + [BakeTrack(tracks[n], CcsOf(ccByTrack, n), overrides)]
  }

  lemma {:induction false} BakeTracksAt(tracks: seq<Track>, ccByTrack: map<int, seq<CcEvent>>, overrides: Overrides, t: nat)
    ensures |BakeTracks(tracks, ccByTrack, overrides)| == |tracks|
    ensures t < |tracks| ==> BakeTracks(tracks, ccByTrack, overrides)[t] == BakeTrack(tracks[t], CcsOf(ccByTrack, t), overrides)
  {
    hide BakeTrack;
    if tracks != [] { BakeTracksAt(tracks[..|tracks| - 1], ccByTrack, overrides, t); }
  }

  /** Controllers added over all tracks. */
  function TotalAdded(tracks: seq<Track>, ccByTrack: map<int, seq<CcEvent>>): nat {
    if tracks == [] then 0
    else TotalAdded(tracks[..|tracks| - 1], ccByTrack) + |CcsOf(ccByTrack, |tracks| - 1)|
  }

  /** Note events removed over all tracks. */
  function TotalRemoved(tracks: seq<Track>, overrides: Overrides): nat {
    if tracks == [] then 0
    else TotalRemoved(tracks[..|tracks| - 1], overrides) + |DroppedIndices(Absolute(tracks[|tracks| - 1]), overrides)|
  }

  /** Is the number of disabled entries over all channels positive? */
  predicate AnyDisabled(overrides: Overrides) {
    exists ch :: ch in overrides && overrides[ch] != {}
  }

  /** `drop` is null in the program when nothing is disabled; here it is empty then. */
  method BakeOne(track: Track, newCCs: seq<CcEvent>, overrides: Overrides, anyDisabled: bool)
    returns (out: Track, added: nat, removed: nat)
    requires anyDisabled == AnyDisabled(overrides)
    ensures out == BakeTrack(track, newCCs, overrides)
    ensures added == |newCCs| && removed == |DroppedIndices(Absolute(track), overrides)|
  {
    var removals: set<int> := {};
    if anyDisabled {
      removals := CollectDisabledEvents(track, overrides);
    } else {
      NothingDisabledNothingDropped(Absolute(track), overrides);
    }
    if |newCCs| == 0 && |removals| == 0 { return track, 0, 0; }
    out := MergeEventsIntoTrack(track, newCCs, removals);
    return out, |newCCs|, |removals|;
  }

  method BakeFile(tracks: seq<Track>, ccByTrack: map<int, seq<CcEvent>>, overrides: Overrides)
    returns (newTracks: seq<Track>, added: nat, removed: nat)
    ensures newTracks == BakeTracks(tracks, ccByTrack, overrides)
    ensures added == TotalAdded(tracks, ccByTrack) && removed == TotalRemoved(tracks, overrides)
  {
    hide BakeTrack, DroppedIndices;
    var anyDisabled := AnyDisabled(overrides);
    newTracks, added, removed := [], 0, 0;
    for t := 0 to |tracks|
      invariant newTracks == BakeTracks(tracks[..t], ccByTrack, overrides)
      invariant added == TotalAdded(tracks[..t], ccByTrack) && removed == TotalRemoved(tracks[..t], overrides)
    {
      assert tracks[..t + 1][..t] == tracks[..t];
      var baked, a, r := BakeOne(tracks[t], CcsOf(ccByTrack, t), overrides, anyDisabled);
      newTracks, added, removed := newTracks + [baked], added + a, removed + r;
    }
    assert tracks[..|tracks|] == tracks;
  }

  // ---- notes survive the sort ----

  lemma {:induction false} WithoutDroppedIsSurvivors(s: seq<Timed>, overrides: Overrides)
    ensures Without(s, DroppedIndices(s, overrides)) == Survivors(s, overrides)
  {
    if s != [] {
      var init := s[..|s| - 1];
      WithoutDroppedIsSurvivors(init, overrides);
      WithoutAgrees(init, DroppedIndices(s, overrides), DroppedIndices(init, overrides));
    }
  }

  lemma {:induction false} WithoutAgrees(s: seq<Timed>, a: set<int>, b: set<int>)
    requires forall i :: 0 <= i < |s| ==> (i in a <==> i in b)
    ensures Without(s, a) == Without(s, b)
  {
    if s != [] { WithoutAgrees(s[..|s| - 1], a, b); }
  }

  /** The stable merge neither reorders, adds nor loses note events. */
  lemma {:induction false} MergeKeepsNotes(track: Track, ccs: seq<CcEvent>, drop: set<int>)
    requires NonNegativeDeltas(track)
    ensures Filter(Absolute(Merge(track, ccs, drop)), NoteTimed) == Filter(Without(Absolute(track), drop), NoteTimed)
  {
    var notes := Filter(Without(Absolute(track), drop), NoteTimed);
    FilterMembers(Without(Absolute(track), drop), NoteTimed);
    assert RanksInOrder(notes) by {
      forall i | 0 <= i < |notes| ensures TypeRank(notes[i].body) == 1 { assert notes[i] in notes; }
    }
    MergeReordersExactly(track, ccs, drop, NoteTimed);
  }

  // ---- main results ----

  /**
   Baking never creates a stuck note: per (channel, note), the baked track leaves
   sounding what the original left sounding, less the disabled notes that never
   got a note-off.
   */
  lemma {:induction false} BakedBalance(track: Track, ccs: seq<CcEvent>, overrides: Overrides)
    requires NonNegativeDeltas(track)
    ensures Pending(Absolute(track), overrides) <= Active(Absolute(track))
    ensures Active(Absolute(BakeTrack(track, ccs, overrides)))
         == Active(Absolute(track)) - Pending(Absolute(track), overrides)
  {
    var timed := Absolute(track);
    var drop := DroppedIndices(timed, overrides);
    DisablingKeepsBalance(timed, overrides);
    WithoutDroppedIsSurvivors(timed, overrides);
    if ccs == [] && drop == {} {
      WithoutNothing(timed);
    } else {
      MergeKeepsNotes(track, ccs, drop);
      ActiveDependsOnNotes(Absolute(Merge(track, ccs, drop)));
      ActiveDependsOnNotes(Survivors(timed, overrides));
    }
  }

  lemma {:induction false} SmallerCount<T>(a: multiset<T>, p: multiset<T>)
    requires p <= a
    ensures |a - p| == |a| - |p|
  {
    assert a == (a - p) + p;
  }

  /** The validator's orphan count of a file never rises, so a balanced file stays balanced. */
  lemma {:induction false} BakingNeverAddsOrphans(tracks: seq<Track>, ccByTrack: map<int, seq<CcEvent>>, overrides: Overrides)
    requires forall t :: 0 <= t < |tracks| ==> NonNegativeDeltas(tracks[t])
    ensures OrphanedNoteOns(BakeTracks(tracks, ccByTrack, overrides)) <= OrphanedNoteOns(tracks)
  {
    hide BakeTrack, Active, Pending;
    if tracks != [] {
      var n := |tracks| - 1;
      BakingNeverAddsOrphans(tracks[..n], ccByTrack, overrides);
      BakedBalance(tracks[n], CcsOf(ccByTrack, n), overrides);
      SmallerCount(Active(Absolute(tracks[n])), Pending(Absolute(tracks[n]), overrides));
      BakeTracksAt(tracks[..n], ccByTrack, overrides, n);
    }
  }

  lemma {:induction false} MergedNotesAreEnabled(track: Track, ccs: seq<CcEvent>, overrides: Overrides)
    ensures var out := Merge(track, ccs, DroppedIndices(Absolute(track), overrides));
      forall e :: e in Absolute(out) ==> !IsDisabled(overrides, e)
  {
    var timed := Absolute(track);
    var drop := DroppedIndices(timed, overrides);
    var x := Expanded(track, ccs, drop);
    MergedIsAbsolute(track, ccs, drop);
    SortIsPermutation(MoveEot(x), SortKey);
    WithoutDroppedIsSurvivors(timed, overrides);
    SurvivorsAreEnabled(timed, overrides);
    FilterMembers(Without(timed, drop), NotOwned(OwnedPairs(ccs)));
    InjectedAreOwned(ccs, OwnedPairs(ccs));
    forall e | e in MoveEot(x) ensures !IsDisabled(overrides, e) {
      assert e in x || e.body == EndOfTrack;
    }
  }

  /** Baking a baked track again, with the same controllers and the same disabled notes, changes nothing. */
  lemma {:induction false} BakeTrackIsIdempotent(track: Track, ccs: seq<CcEvent>, overrides: Overrides)
    requires AtMostOneEot(Absolute(track))
    ensures BakeTrack(BakeTrack(track, ccs, overrides), ccs, overrides) == BakeTrack(track, ccs, overrides)
  {
    var drop := DroppedIndices(Absolute(track), overrides);
    if ccs == [] && drop == {} {
    } else {
      MergedNotesAreEnabled(track, ccs, overrides);
      NothingDisabledNothingDropped(Absolute(Merge(track, ccs, drop)), overrides);
      BaseKeepsLone(track, drop, OwnedPairs(ccs));
      MergeTwiceIsMergeOnce(track, ccs, drop);
    }
  }

  lemma {:induction false} BakeIsIdempotent(tracks: seq<Track>, ccByTrack: map<int, seq<CcEvent>>, overrides: Overrides)
    requires forall t :: 0 <= t < |tracks| ==> AtMostOneEot(Absolute(tracks[t]))
    ensures var once := BakeTracks(tracks, ccByTrack, overrides);
      BakeTracks(once, ccByTrack, overrides) == once
  {
    if tracks != [] {
      var n := |tracks| - 1;
      BakeIsIdempotent(tracks[..n], ccByTrack, overrides);
      BakeTracksAt(tracks[..n], ccByTrack, overrides, n);
      BakeTrackIsIdempotent(tracks[n], CcsOf(ccByTrack, n), overrides);
    }
  }

  /**
   The baked file, told by the fields of its events: track by track, controllers on a
   pair that the track's list bakes are those of the list, and everything else is as
   often there as before, less the disabled notes and their releases.
   */
  lemma {:induction false} BakedContents(tracks: seq<Track>, ccByTrack: map<int, seq<CcEvent>>, overrides: Overrides, t: nat,
                                         tick: int, body: Body)
    requires t < |tracks| && body != EndOfTrack
    ensures |BakeTracks(tracks, ccByTrack, overrides)| == |tracks|
    ensures var baked := |Places(BakeTracks(tracks, ccByTrack, overrides)[t], {}, tick, body)|;
      if body.Controller? && t in ccByTrack && Bakes(ccByTrack[t], body.channel, body.controllerType)
      then baked == |Entries(ccByTrack[t], tick, body.channel, body.controllerType, body.value)|
      else baked == |Places(tracks[t], DroppedIndices(Absolute(tracks[t]), overrides), tick, body)|
  {
    BakeTracksAt(tracks, ccByTrack, overrides, t);
    var ccs, drop := CcsOf(ccByTrack, t), DroppedIndices(Absolute(tracks[t]), overrides);
    hide Places, Entries, DroppedIndices, BakeTracks;
    if ccs != [] || drop != {} { MergedContents(tracks[t], ccs, drop, tick, body); }
  }
}
