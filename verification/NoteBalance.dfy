/**
 Which notes are sounding. The validator counts note-ons that never get a
 note-off; the baker removes the notes an operator disabled, each together with
 one note-off. Both keep a counter per (channel, note). As multisets of keys the
 counters are `Active` (what sounds) and `Pending` (disabled notes whose note-off
 still has to be removed).
 */
module NoteBalance {
  import opened Midi
  import opened StableSort

  datatype Key = Key(channel: int, note: int)

  /** The operator's disabled (tick, note) pairs, by source channel. */
  type Overrides = map<int, set<Slot>>
  datatype Slot = Slot(tick: int, note: int)

  predicate IsNoteEvent(b: Body) { IsNoteOn(b) || IsNoteOff(b) }

  function KeyOf(b: Body): Key
    requires IsNoteEvent(b)
  {
    Key(b.channel, b.note)
  }

  predicate IsDisabled(overrides: Overrides, e: Timed) {
    IsNoteOn(e.body) && e.body.channel in overrides && Slot(e.tick, e.body.note) in overrides[e.body.channel]
  }

  function Sound(m: multiset<Key>, b: Body): multiset<Key> {
    if IsNoteOn(b) then m + multiset{KeyOf(b)}
    else if IsNoteOff(b) then m - multiset{KeyOf(b)}
    else m
  }

  /** Note-ons not yet matched by a note-off; an unmatched note-off is ignored. */
  function Active(s: seq<Timed>): multiset<Key> {
    if s == [] then multiset{} else Sound(Active(s[..|s| - 1]), s[|s| - 1].body)
  }

  function Await(m: multiset<Key>, e: Timed, overrides: Overrides): multiset<Key> {
    if IsDisabled(overrides, e) then m + multiset{KeyOf(e.body)}
    else if IsNoteOff(e.body) then m - multiset{KeyOf(e.body)}
    else m
  }

  function Pending(s: seq<Timed>, overrides: Overrides): multiset<Key> {
    if s == [] then multiset{} else Await(Pending(s[..|s| - 1], overrides), s[|s| - 1], overrides)
  }

  /** Does the baker remove `e` when `pending` note-offs are still to be removed? */
  predicate IsDropped(pending: multiset<Key>, e: Timed, overrides: Overrides) {
    IsDisabled(overrides, e) || (IsNoteOff(e.body) && KeyOf(e.body) in pending)
  }

  function DroppedIndices(s: seq<Timed>, overrides: Overrides): (r: set<int>)
    ensures forall i :: i in r ==> 0 <= i < |s|
  {
    if s == [] then {} else
      var init := s[..|s| - 1];
      DroppedIndices(init, overrides)
      + if IsDropped(Pending(init, overrides), s[|s| - 1], overrides) then {|s| - 1} else {}
  }

  function Survivors(s: seq<Timed>, overrides: Overrides): seq<Timed> {
    if s == [] then [] else
      var init := s[..|s| - 1];
      Survivors(init, overrides)
      + if IsDropped(Pending(init, overrides), s[|s| - 1], overrides) then [] else [s[|s| - 1]]
  }

  function OrphanedNoteOns(tracks: seq<Track>): nat {
    if tracks == [] then 0
    else OrphanedNoteOns(tracks[..|tracks| - 1]) + |Active(Absolute(tracks[|tracks| - 1]))|
  }

  lemma {:induction false} ActiveSnoc(s: seq<Timed>, e: Timed)
    ensures Active(s + [e]) == Sound(Active(s), e.body)
  {
    assert (s + [e])[..|s|] == s;
  }

  /** A dropped event changes what sounds and what is pending alike; a survivor leaves their difference to itself. */
  lemma {:induction false} StepBoth<T>(a: multiset<T>, p: multiset<T>, k: T)
    requires p <= a
    ensures p + multiset{k} <= a + multiset{k}
    ensures (a + multiset{k}) - (p + multiset{k}) == a - p
    ensures k in p ==> p - multiset{k} <= a - multiset{k} && (a - multiset{k}) - (p - multiset{k}) == a - p
  {
  }

  lemma {:induction false} StepSurvivor<T>(a: multiset<T>, p: multiset<T>, k: T)
    requires p <= a
    ensures p <= a + multiset{k} && (a - p) + multiset{k} == (a + multiset{k}) - p
    ensures k !in p ==> p - multiset{k} == p <= a - multiset{k} && (a - p) - multiset{k} == (a - multiset{k}) - p
  {
  }

  lemma {:induction false} BalanceStep(active: multiset<Key>, pending: multiset<Key>, e: Timed, overrides: Overrides)
    requires pending <= active
    ensures Await(pending, e, overrides) <= Sound(active, e.body)
    ensures IsDropped(pending, e, overrides) ==>
      active - pending == Sound(active, e.body) - Await(pending, e, overrides)
    ensures !IsDropped(pending, e, overrides) ==>
      Sound(active - pending, e.body) == Sound(active, e.body) - Await(pending, e, overrides)
  {
    if IsNoteEvent(e.body) {
      var k := KeyOf(e.body);
      if IsDropped(pending, e, overrides) {
        StepBoth(active, pending, k);
      } else {
        StepSurvivor(active, pending, k);
      }
    }
  }

  lemma {:induction false} SurvivorsSnoc(s: seq<Timed>, e: Timed, overrides: Overrides)
    ensures Pending(s + [e], overrides) == Await(Pending(s, overrides), e, overrides)
    ensures Survivors(s + [e], overrides) == if IsDropped(Pending(s, overrides), e, overrides)
      then Survivors(s, overrides) else Survivors(s, overrides) + [e]
  {
    assert (s + [e])[..|s|] == s;
  }

  lemma {:induction false} DroppedSnoc(s: seq<Timed>, e: Timed, overrides: Overrides)
    ensures Pending(s + [e], overrides) == Await(Pending(s, overrides), e, overrides)
    ensures DroppedIndices(s + [e], overrides) == if IsDropped(Pending(s, overrides), e, overrides)
      then DroppedIndices(s, overrides) + {|s|} else DroppedIndices(s, overrides)
  {
    assert (s + [e])[..|s|] == s;
  }

  /** Removing the disabled notes removes exactly the pending ones from what sounds, after every event. */
  lemma {:induction false} DisablingKeepsBalance(s: seq<Timed>, overrides: Overrides)
    ensures Pending(s, overrides) <= Active(s)
    ensures Active(Survivors(s, overrides)) == Active(s) - Pending(s, overrides)
  {
    if s != [] {
      var init, last := s[..|s| - 1], s[|s| - 1];
      assert s == init + [last];
      DisablingKeepsBalance(init, overrides);
      BalanceStep(Active(init), Pending(init, overrides), last, overrides);
      ActiveSnoc(init, last);
      ActiveSnoc(Survivors(init, overrides), last);
      SurvivorsSnoc(init, last, overrides);
    }
  }

  /** The notes that sound at the disabled note-ons, as keys. */
  function DisabledOns(s: seq<Timed>, overrides: Overrides): multiset<Key> {
    if s == [] then multiset{} else
      var last := s[|s| - 1];
      DisabledOns(s[..|s| - 1], overrides) + if IsDisabled(overrides, last) then multiset{KeyOf(last.body)} else multiset{}
  }

  /** The keys of the note-offs that are removed. */
  function DroppedOffs(s: seq<Timed>, overrides: Overrides): multiset<Key> {
    if s == [] then multiset{} else
      var init, last := s[..|s| - 1], s[|s| - 1];
      DroppedOffs(init, overrides)
      + if IsNoteOff(last.body) && IsDropped(Pending(init, overrides), last, overrides) then multiset{KeyOf(last.body)} else multiset{}
  }

  /** Removals pair up: every disabled note-on takes one note-off of its key with it, or is still waiting for one. */
  lemma {:induction false} DropsPairUp(s: seq<Timed>, overrides: Overrides)
    ensures DisabledOns(s, overrides) == DroppedOffs(s, overrides) + Pending(s, overrides)
  {
    if s != [] {
      var init, last := s[..|s| - 1], s[|s| - 1];
      DropsPairUp(init, overrides);
      PairStep(DisabledOns(init, overrides), DroppedOffs(init, overrides), Pending(init, overrides), last, overrides);
    }
  }

  lemma {:induction false} PairStep(ons: multiset<Key>, offs: multiset<Key>, pending: multiset<Key>, e: Timed, overrides: Overrides)
    requires ons == offs + pending
    ensures ons + (if IsDisabled(overrides, e) then multiset{KeyOf(e.body)} else multiset{})
         == offs + (if IsNoteOff(e.body) && IsDropped(pending, e, overrides) then multiset{KeyOf(e.body)} else multiset{})
            + Await(pending, e, overrides)
  {
    if IsNoteEvent(e.body) {
      var k := KeyOf(e.body);
      if IsNoteOff(e.body) && k in pending { assert pending == (pending - multiset{k}) + multiset{k}; }
    }
  }

  /** What disabling never touches: everything but disabled note-ons and note-offs. */
  function Untouchable(overrides: Overrides): Timed -> bool { (e: Timed) => !IsDisabled(overrides, e) && !IsNoteOff(e.body) }

  lemma {:induction false} RestSurvives(s: seq<Timed>, overrides: Overrides)
    ensures Filter(Survivors(s, overrides), Untouchable(overrides)) == Filter(s, Untouchable(overrides))
  {
    if s != [] {
      var init, last := s[..|s| - 1], s[|s| - 1];
      RestSurvives(init, overrides);
      assert s == init + [last];
      SurvivorsSnoc(init, last, overrides);
      FilterConcat(init, [last], Untouchable(overrides));
      FilterConcat(Survivors(init, overrides), [last], Untouchable(overrides));
      FilterTouched(last, overrides, Pending(init, overrides));
    }
  }

  lemma {:induction false} FilterTouched(e: Timed, overrides: Overrides, pending: multiset<Key>)
    ensures IsDropped(pending, e, overrides) ==> Filter([e], Untouchable(overrides)) == []
  {
    assert [e][..0] == [];
  }

  predicate NoteTimed(e: Timed) { IsNoteEvent(e.body) }

  /** What sounds depends on the note events alone. */
  lemma {:induction false} ActiveDependsOnNotes(s: seq<Timed>)
    ensures Active(Filter(s, NoteTimed)) == Active(s)
  {
    if s != [] { ActiveDependsOnNotes(s[..|s| - 1]); }
  }

  /** Nothing disabled among the note-ons: nothing is dropped. */
  lemma {:induction false} NothingDisabledNothingDropped(s: seq<Timed>, overrides: Overrides)
    requires forall e :: e in s ==> !IsDisabled(overrides, e)
    ensures Pending(s, overrides) == multiset{}
    ensures Survivors(s, overrides) == s
    ensures DroppedIndices(s, overrides) == {}
  {
    if s != [] {
      var init, last := s[..|s| - 1], s[|s| - 1];
      NothingDisabledNothingDropped(init, overrides);
      assert last in s;
      NothingAwaited(last, overrides);
      assert s == init + [last];
    }
  }

  lemma {:induction false} NothingAwaited(e: Timed, overrides: Overrides)
    requires !IsDisabled(overrides, e)
    ensures Await(multiset{}, e, overrides) == multiset{}
    ensures !IsDropped(multiset{}, e, overrides)
  {
  }

  lemma {:induction false} SurvivorsAreEnabled(s: seq<Timed>, overrides: Overrides)
    ensures forall e :: e in Survivors(s, overrides) ==> e in s && !IsDisabled(overrides, e)
  {
    if s != [] { SurvivorsAreEnabled(s[..|s| - 1], overrides); }
  }

  // ---- told by the fields of the events ----

  /** How many notes of a channel and pitch sound: a strike has a velocity above 0, a note-on at velocity 0 is a release. */
  function SoundingAt(s: seq<Timed>, channel: int, note: int): nat {
    if s == [] then 0 else
      var before := SoundingAt(s[..|s| - 1], channel, note);
      match s[|s| - 1].body
      case NoteOn(c, n, velocity) =>
        if c != channel || n != note || velocity < 0 then before
        else if velocity > 0 then before + 1
        else if before == 0 then 0 else before - 1
      case NoteOff(c, n, _) => if c != channel || n != note || before == 0 then before else before - 1
      case _ => before
  }

  lemma {:induction false} ActiveByFields(s: seq<Timed>, channel: int, note: int)
    ensures Active(s)[Key(channel, note)] == SoundingAt(s, channel, note)
  {
    if s != [] { ActiveByFields(s[..|s| - 1], channel, note); }
  }

  /** Did the operator disable the note struck by `e`? */
  predicate DisabledStrike(e: Timed, overrides: Overrides, channel: int, note: int) {
    && e.body.NoteOn? && e.body.velocity > 0 && e.body.channel == channel && e.body.note == note
    && channel in overrides && Slot(e.tick, note) in overrides[channel]
  }

  predicate Releases(b: Body, channel: int, note: int) {
    (b.NoteOff? || (b.NoteOn? && b.velocity == 0)) && b.channel == channel && b.note == note
  }

  /** How many releases of a channel and pitch are still to be dropped. */
  function PendingAt(s: seq<Timed>, overrides: Overrides, channel: int, note: int): nat {
    if s == [] then 0 else
      var before := PendingAt(s[..|s| - 1], overrides, channel, note);
      if DisabledStrike(s[|s| - 1], overrides, channel, note) then before + 1
      else if Releases(s[|s| - 1].body, channel, note) && before > 0 then before - 1
      else before
  }

  lemma {:induction false} PendingByFields(s: seq<Timed>, overrides: Overrides, channel: int, note: int)
    ensures Pending(s, overrides)[Key(channel, note)] == PendingAt(s, overrides, channel, note)
  {
    if s != [] { PendingByFields(s[..|s| - 1], overrides, channel, note); }
  }

  /** An event is dropped if and only if it strikes a disabled note, or releases a note while a release of it is pending. */
  lemma {:induction false} DroppedByFields(s: seq<Timed>, overrides: Overrides, i: nat)
    requires i < |s|
    ensures i in DroppedIndices(s, overrides) <==> exists channel, note ::
      DisabledStrike(s[i], overrides, channel, note)
      || (Releases(s[i].body, channel, note) && PendingAt(s[..i], overrides, channel, note) > 0)
  {
    var init := s[..|s| - 1];
    if i < |init| {
      DroppedByFields(init, overrides, i);
      assert init[..i] == s[..i];
    } else {
      assert i in DroppedIndices(s, overrides) <==> IsDropped(Pending(init, overrides), s[i], overrides);
      if IsNoteEvent(s[i].body) {
        var k := KeyOf(s[i].body);
        PendingByFields(init, overrides, k.channel, k.note);
        assert IsDropped(Pending(init, overrides), s[i], overrides) <==>
          DisabledStrike(s[i], overrides, k.channel, k.note)
          || (Releases(s[i].body, k.channel, k.note) && PendingAt(s[..i], overrides, k.channel, k.note) > 0);
      }
    }
  }

  /** Tracks that agree so far go on agreeing. */
  ghost predicate Alike(a: seq<Timed>, b: seq<Timed>, overrides: Overrides) {
    && |a| == |b| && Active(a) == Active(b) && Pending(a, overrides) == Pending(b, overrides)
    && DroppedIndices(a, overrides) == DroppedIndices(b, overrides)
  }

  lemma {:induction false} AlikeSnoc(a: seq<Timed>, b: seq<Timed>, x: Timed, y: Timed, overrides: Overrides)
    requires Alike(a, b, overrides) && Sound(Active(a), x.body) == Sound(Active(a), y.body)
    requires Await(Pending(a, overrides), x, overrides) == Await(Pending(a, overrides), y, overrides)
    requires IsDropped(Pending(a, overrides), x, overrides) == IsDropped(Pending(a, overrides), y, overrides)
    ensures Alike(a + [x], b + [y], overrides)
  {
    hide Active, Pending, DroppedIndices, Sound, Await, IsDropped;
    ActiveSnoc(a, x);
    ActiveSnoc(b, y);
    DroppedSnoc(a, x, overrides);
    DroppedSnoc(b, y, overrides);
  }

  lemma {:induction false} AlikeConcat(a: seq<Timed>, b: seq<Timed>, rest: seq<Timed>, overrides: Overrides)
    requires Alike(a, b, overrides)
    ensures Alike(a + rest, b + rest, overrides)
  {
    hide Alike;
    if rest == [] {
      assert a + rest == a && b + rest == b;
    } else {
      var init, last := rest[..|rest| - 1], rest[|rest| - 1];
      AlikeConcat(a, b, init, overrides);
      assert a + rest == a + init + [last] && b + rest == b + init + [last];
      AlikeSnoc(a + init, b + init, last, last, overrides);
    }
  }

  /** A note-off and a note-on at velocity 0 can stand for each other anywhere in a track. */
  lemma {:induction false} ReleaseFormsAgree(a: seq<Timed>, b: seq<Timed>, tick: int, channel: int, note: int, velocity: int, overrides: Overrides)
    ensures var off, zero := a + [Timed(tick, NoteOff(channel, note, velocity))] + b, a + [Timed(tick, NoteOn(channel, note, 0))] + b;
      && Active(off) == Active(zero) && Pending(off, overrides) == Pending(zero, overrides)
      && DroppedIndices(off, overrides) == DroppedIndices(zero, overrides)
  {
    AlikeSnoc(a, a, Timed(tick, NoteOff(channel, note, velocity)), Timed(tick, NoteOn(channel, note, 0)), overrides);
    AlikeConcat(a + [Timed(tick, NoteOff(channel, note, velocity))], a + [Timed(tick, NoteOn(channel, note, 0))], b, overrides);
  }

  /** A strike and then a release, of either form, leave what sounds as it was. */
  lemma {:induction false} StrikeAndRelease(s: seq<Timed>, strike: Timed, release: Timed, channel: int, note: int, velocity: int)
    requires strike.body == NoteOn(channel, note, velocity) && velocity > 0
    requires release.body == NoteOn(channel, note, 0) || exists v :: release.body == NoteOff(channel, note, v)
    ensures Active(s + [strike] + [release]) == Active(s)
  {
    ActiveSnoc(s, strike);
    ActiveSnoc(s + [strike], release);
    assert Active(s) + multiset{Key(channel, note)} - multiset{Key(channel, note)} == Active(s);
  }

  /** If the strike was disabled and no release was pending, both are dropped; if it was not, neither is. */
  lemma {:induction false} StrikeAndReleaseDropped(s: seq<Timed>, strike: Timed, release: Timed, channel: int, note: int, velocity: int,
                                                   overrides: Overrides)
    requires strike.body == NoteOn(channel, note, velocity) && velocity > 0
    requires release.body == NoteOn(channel, note, 0) || exists v :: release.body == NoteOff(channel, note, v)
    requires PendingAt(s, overrides, channel, note) == 0
    ensures DroppedIndices(s + [strike] + [release], overrides)
         == DroppedIndices(s, overrides)
            + if channel in overrides && Slot(strike.tick, note) in overrides[channel] then {|s|, |s| + 1} else {}
  {
    PendingByFields(s, overrides, channel, note);
    DroppedSnoc(s, strike, overrides);
    DroppedSnoc(s + [strike], release, overrides);
    assert Key(channel, note) !in Pending(s, overrides);
  }

  // ---- the counters kept in maps ----

  type Counts = map<Key, int>

  function Count(counts: Counts, k: Key): int { if k in counts then counts[k] else 0 }

  ghost predicate Mirrors(counts: Counts, m: multiset<Key>) {
    forall k :: Count(counts, k) == m[k]
  }

  ghost predicate AllPositive(counts: Counts) { forall k :: k in counts ==> counts[k] > 0 }

  /** The baker's bookkeeping for one event: the new counters. */
  function AwaitCounted(counts: Counts, e: Timed, overrides: Overrides): Counts {
    if IsDisabled(overrides, e) then counts[KeyOf(e.body) := Count(counts, KeyOf(e.body)) + 1]
    else if IsNoteOff(e.body) && Count(counts, KeyOf(e.body)) > 0 then
      counts[KeyOf(e.body) := Count(counts, KeyOf(e.body)) - 1]
    else counts
  }

  lemma {:induction false} AwaitMirrored(counts: Counts, m: multiset<Key>, e: Timed, overrides: Overrides)
    requires Mirrors(counts, m)
    ensures Mirrors(AwaitCounted(counts, e, overrides), Await(m, e, overrides))
    ensures IsDropped(m, e, overrides)
       <==> IsDisabled(overrides, e) || (IsNoteOff(e.body) && Count(counts, KeyOf(e.body)) > 0)
  {
  }

  /** The validator's bookkeeping for one event; a key whose count reaches zero leaves the map. */
  function SoundCounted(counts: Counts, b: Body): Counts {
    if IsNoteOn(b) then counts[KeyOf(b) := Count(counts, KeyOf(b)) + 1]
    else if IsNoteOff(b) && Count(counts, KeyOf(b)) > 0 then
      if counts[KeyOf(b)] <= 1 then counts - {KeyOf(b)} else counts[KeyOf(b) := counts[KeyOf(b)] - 1]
    else counts
  }

  lemma {:induction false} SoundMirrored(counts: Counts, m: multiset<Key>, b: Body)
    requires Mirrors(counts, m)
    ensures Mirrors(SoundCounted(counts, b), Sound(m, b))
    ensures AllPositive(counts) ==> AllPositive(SoundCounted(counts, b))
  {
  }

  /**
   The baker's scan: indices of the disabled note-ons, and of one note-off for
   each of them.
   */
  method CollectDisabledEvents(track: Track, overrides: Overrides) returns (drop: set<int>)
    ensures drop == DroppedIndices(Absolute(track), overrides)
  {
    drop := {};
    if |overrides| == 0 {
      NothingDisabledNothingDropped(Absolute(track), overrides);
      return;
    }
    var pendingOff: Counts := map[];
    var absTick := 0;
    for i := 0 to |track|
      invariant absTick == EndTick(track[..i])
      invariant Mirrors(pendingOff, Pending(Absolute(track[..i]), overrides))
      invariant drop == DroppedIndices(Absolute(track[..i]), overrides)
    {
      absTick := absTick + track[i].delta;
      var e := Timed(absTick, track[i].body);
      AbsoluteSnoc(track, i);
      DroppedSnoc(Absolute(track[..i]), e, overrides);
      AwaitMirrored(pendingOff, Pending(Absolute(track[..i]), overrides), e, overrides);
      if IsDisabled(overrides, e) || (IsNoteOff(e.body) && Count(pendingOff, KeyOf(e.body)) > 0) {
        drop := drop + {i};
      }
      pendingOff := AwaitCounted(pendingOff, e, overrides);
    }
    assert track[..|track|] == track;
  }

  method SumCounts(counts: Counts, ghost m: multiset<Key>) returns (sum: nat)
    requires Mirrors(counts, m)
    ensures sum == |m|
  {
    sum := 0;
    var rest := counts;
    ghost var left := m;
    while rest != map[]
      invariant Mirrors(rest, left)
      invariant sum + |left| == |m|
      decreases |rest|
    {
      var k :| k in rest;
      assert rest[k] == left[k];
      sum := sum + rest[k];
      left := left[k := 0];
      ghost var bigger := rest;
      rest := rest - {k};
      assert bigger == rest[k := bigger[k]];
    }
    assert left == multiset{};
  }

  /** The validator's orphan count over one file. */
  method CountOrphans(tracks: seq<Track>) returns (orphanedNoteOns: nat)
    ensures orphanedNoteOns == OrphanedNoteOns(tracks)
  {
    orphanedNoteOns := 0;
    for t := 0 to |tracks|
      invariant orphanedNoteOns == OrphanedNoteOns(tracks[..t])
    {
      assert tracks[..t + 1][..t] == tracks[..t];
      var track := tracks[t];
      if |track| == 0 { continue; }
      var activeNotes: Counts := map[];
      for i := 0 to |track|
        invariant Mirrors(activeNotes, Active(Absolute(track[..i])))
      {
        var b := track[i].body;
        AbsoluteSnoc(track, i);
        ActiveSnoc(Absolute(track[..i]), Timed(EndTick(track[..i + 1]), b));
        SoundMirrored(activeNotes, Active(Absolute(track[..i])), b);
        activeNotes := SoundCounted(activeNotes, b);
      }
      assert track[..|track|] == track;
      var orphans := SumCounts(activeNotes, Active(Absolute(track)));
      orphanedNoteOns := orphanedNoteOns + orphans;
    }
    assert tracks[..|tracks|] == tracks;
  }
}
