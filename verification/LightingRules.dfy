/**
 Lighting rules: when a rule reacts to a MIDI event, and what a static,
 immediately released rule does to its device. A rule that lit a note owns the
 note's release even when the release fails the trigger or the velocity window.
 The counters of a device are shared by all its rules; its LEDs are not.
 */
module LightingRules {
  import opened Wrappers

  datatype MidiType = NoteOn | NoteOff | Cc | OtherType(name: string)
  datatype MidiData = MidiData(kind: MidiType, channel: Option<int>, note: Option<int>, velocity: Option<int>,
                               controller: Option<int>, value: Option<int>)

  datatype Trigger = Any | Only(kind: MidiType)
  datatype Condition = Condition(trigger: Trigger, channels: seq<int>, velocityMin: Option<int>, velocityMax: Option<int>,
                                 noteMin: Option<int>, noteMax: Option<int>, ccNumbers: seq<int>,
                                 ccValueMin: Option<int>, ccValueMax: Option<int>)

  /** The LEDs of a rule: clamping its range to the strip leaves at least one. */
  type Range = s: set<int> | s != {} witness {0}

  datatype Rule = Rule(device: string, instrument: string, condition: Condition, leds: Range)
  datatype Entry = Entry(instrument: string, midi: MidiData)

  type Notes = map<Option<int>, nat>

  /** The held-note counters of a device (none before its first note) and the LEDs that are on. */
  datatype Device = Device(notes: Option<Notes>, lit: set<int>)

  const DARK := Device(None, {})

  predicate AtLeast(x: int, bound: Option<int>) { bound.Some? ==> bound.value <= x }
  predicate AtMost(x: int, bound: Option<int>) { bound.Some? ==> x <= bound.value }

  predicate IsRelease(m: MidiData) {
    m.kind == NoteOff || (m.kind == NoteOn && m.velocity == Some(0))
  }

  predicate MatchesCondition(c: Condition, m: MidiData) {
    && (c.trigger.Only? ==> c.trigger.kind == m.kind)
    && (|c.channels| > 0 ==> m.channel.Some? && m.channel.value in c.channels)
    && (m.velocity.Some? ==> AtLeast(m.velocity.value, c.velocityMin) && AtMost(m.velocity.value, c.velocityMax))
    && (m.note.Some? ==> AtLeast(m.note.value, c.noteMin) && AtMost(m.note.value, c.noteMax))
    && (|c.ccNumbers| > 0 ==> m.controller.Some? && m.controller.value in c.ccNumbers)
    && (m.value.Some? && m.kind == Cc ==> AtLeast(m.value.value, c.ccValueMin) && AtMost(m.value.value, c.ccValueMax))
  }

  /** The condition without how the note was struck: where the rule applies. */
  function Where(c: Condition): Condition {
    c.(trigger := Any, velocityMin := None, velocityMax := None)
  }

  predicate MatchesPairedRelease(c: Condition, d: Device, m: MidiData) {
    && IsRelease(m) && m.note.Some?
    && (c.trigger.Only? ==> c.trigger.kind == NoteOn)
    && d.notes.Some? && m.note in d.notes.value
    && MatchesCondition(Where(c), m)
  }

  predicate RuleMatches(c: Condition, d: Device, m: MidiData) {
    MatchesCondition(c, m) || MatchesPairedRelease(c, d, m)
  }

  function Held(d: Device, note: Option<int>): nat {
    if d.notes.Some? && note in d.notes.value then d.notes.value[note] else 0
  }

  function TrackNoteOn(d: Device, note: Option<int>): Device {
    var notes := if d.notes.Some? then d.notes.value else map[];
    d.(notes := Some(notes[note := Held(d, note) + 1]))
  }

  /** Releasing a note; when no note is held any more, the LEDs of the releasing rule go off. */
  function HandleNoteOff(d: Device, note: Option<int>, leds: Range): Device {
    if d.notes.None? then d else
      var count := (if Held(d, note) == 0 then 1 else Held(d, note)) - 1;
      var notes := if count <= 0 then d.notes.value - {note} else d.notes.value[note := count];
      Device(Some(notes), if notes == map[] then d.lit - leds else d.lit)
  }

  function Execute(leds: Range, d: Device, m: MidiData): Device {
    if IsRelease(m) then HandleNoteOff(d, m.note, leds)
    else
      var tracked := if m.kind == NoteOn && m.velocity.Some? && m.velocity.value > 0 then TrackNoteOn(d, m.note) else d;
      tracked.(lit := tracked.lit + leds)
  }

  function React(rule: Rule, d: Device, e: Entry): Device {
    if e.instrument == rule.instrument && RuleMatches(rule.condition, d, e.midi) then Execute(rule.leds, d, e.midi) else d
  }

  /** The rules of a device, one after the other. */
  function ReactAll(own: seq<Rule>, d: Device, e: Entry): Device {
    if own == [] then d else React(own[|own| - 1], ReactAll(own[..|own| - 1], d, e), e)
  }

  // ---- the reference: how often a note sounds where the rules of a device apply ----

  /** Does the event concern the place the rule watches, whatever its velocity? */
  predicate Concerns(rule: Rule, e: Entry) {
    e.instrument == rule.instrument && MatchesCondition(Where(rule.condition), e.midi)
  }

  /** How many of the rules the event concerns. */
  function Weight(own: seq<Rule>, e: Entry): nat {
    if own == [] then 0 else Weight(own[..|own| - 1], e) + if Concerns(own[|own| - 1], e) then 1 else 0
  }

  predicate IsAttack(m: MidiData) { m.kind == NoteOn && m.velocity.Some? && m.velocity.value > 0 }

  /** One event's effect on a count for `note`, when it concerns `weight` rules. */
  function Counted(weight: nat, note: Option<int>, count: nat, e: Entry): nat {
    if e.midi.note != note then count
    else if IsAttack(e.midi) then count + weight
    else if IsRelease(e.midi) then if count <= weight then 0 else count - weight
    else count
  }

  function SoundStep(own: seq<Rule>, note: Option<int>, count: nat, e: Entry): nat { Counted(Weight(own, e), note, count, e) }

  function SoundingFrom(own: seq<Rule>, note: Option<int>, count: nat, s: seq<Entry>): nat {
    if s == [] then count else SoundStep(own, note, SoundingFrom(own, note, count, s[..|s| - 1]), s[|s| - 1])
  }

  /** How often `note` sounds after the events `s`, counted once for every rule concerned. */
  function Sounding(own: seq<Rule>, note: Option<int>, s: seq<Entry>): nat { SoundingFrom(own, note, 0, s) }

  /** Note events say which note, and note-ons how hard. */
  predicate WellFormed(m: MidiData) {
    && (m.kind == NoteOn || m.kind == NoteOff ==> m.note.Some?)
    && (m.kind == NoteOn ==> m.velocity.Some? && m.velocity.value >= 0)
  }

  ghost predicate AllWellFormed(s: seq<Entry>) { forall i :: 0 <= i < |s| ==> WellFormed(s[i].midi) }

  /** Counters are positive and keyed by real notes. */
  ghost predicate CountersOk(d: Device) {
    d.notes.Some? ==> forall n :: n in d.notes.value ==> n.Some? && d.notes.value[n] > 0
  }

  /** What is lit belongs to `leds`, and a lit device holds a note. */
  ghost predicate LitOk(d: Device, leds: set<int>) {
    d.lit <= leds && (d.lit != {} ==> d.notes.Some? && d.notes.value != map[])
  }

  lemma {:induction false} LitImpliesHeld(d: Device, leds: set<int>) returns (note: Option<int>)
    requires CountersOk(d) && LitOk(d, leds) && d.lit != {}
    ensures note.Some? && Held(d, note) > 0
  {
    note :| note in d.notes.value;
  }

  /** A note-on rule keeps the counters honest, and never counts more than sounds. */
  lemma {:induction false} ReactKeepsDevice(rule: Rule, d: Device, e: Entry, note: Option<int>)
    requires CountersOk(d) && WellFormed(e.midi) && rule.condition.trigger == Only(NoteOn)
    ensures CountersOk(React(rule, d, e))
    ensures Held(React(rule, d, e), note) <= Counted(if Concerns(rule, e) then 1 else 0, note, Held(d, note), e)
    ensures LitOk(d, rule.leds) ==> LitOk(React(rule, d, e), rule.leds)
  {
    var m := e.midi;
    if e.instrument == rule.instrument && RuleMatches(rule.condition, d, m) {
      assert MatchesCondition(Where(rule.condition), m);
      if IsRelease(m) {
        ReleaseKeepsDevice(d, m.note, rule.leds);
      }
    }
  }

  lemma {:induction false} ReleaseKeepsDevice(d: Device, note: Option<int>, leds: Range)
    requires CountersOk(d)
    ensures CountersOk(HandleNoteOff(d, note, leds))
    ensures forall n :: Held(HandleNoteOff(d, note, leds), n) == if n == note && Held(d, n) > 0 then Held(d, n) - 1 else Held(d, n)
  {
  }

  ghost predicate NoteOnRules(own: seq<Rule>) { forall k :: 0 <= k < |own| ==> own[k].condition.trigger == Only(NoteOn) }

  /** All rules light the same LEDs. */
  ghost predicate OneRange(own: seq<Rule>) { forall j, k :: 0 <= j < k < |own| ==> own[j].leds == own[k].leds }

  /** So do all note-on rules of a device together, one after the other; if they share a range, in the LEDs too. */
  lemma {:induction false} ReactAllKeepsDevice(own: seq<Rule>, d: Device, e: Entry, note: Option<int>)
    requires CountersOk(d) && WellFormed(e.midi) && NoteOnRules(own)
    ensures CountersOk(ReactAll(own, d, e))
    ensures Held(ReactAll(own, d, e), note) <= SoundStep(own, note, Held(d, note), e)
  {
    if own != [] {
      var init, last := own[..|own| - 1], own[|own| - 1];
      ReactAllKeepsDevice(init, d, e, note);
      ReactKeepsDevice(last, ReactAll(init, d, e), e, note);
    }
  }

  lemma {:induction false} ReactAllKeepsLit(own: seq<Rule>, d: Device, e: Entry, leds: set<int>)
    requires CountersOk(d) && LitOk(d, leds) && WellFormed(e.midi) && NoteOnRules(own)
    requires forall k :: 0 <= k < |own| ==> own[k].leds == leds
    ensures LitOk(ReactAll(own, d, e), leds)
  {
    if own != [] {
      var init, last := own[..|own| - 1], own[|own| - 1];
      ReactAllKeepsLit(init, d, e, leds);
      ReactAllKeepsDevice(init, d, e, None);
      ReactKeepsDevice(last, ReactAll(init, d, e), e, None);
    }
  }

  // ---- the reference, rule by rule ----

  function SoundingEach(own: seq<Rule>, note: Option<int>, s: seq<Entry>): nat {
    if own == [] then 0 else SoundingEach(own[..|own| - 1], note, s) + Sounding([own[|own| - 1]], note, s)
  }

  lemma {:induction false} SoundsWithOneMore(init: seq<Rule>, last: Rule, note: Option<int>, s: seq<Entry>)
    ensures Sounding(init + [last], note, s) <= Sounding(init, note, s) + Sounding([last], note, s)
  {
    if s != [] {
      SoundsWithOneMore(init, last, note, s[..|s| - 1]);
      WeightSnoc(init, last, s[|s| - 1]);
      hide Weight;
    }
  }

  lemma {:induction false} WeightSnoc(init: seq<Rule>, last: Rule, e: Entry)
    ensures Weight([last], e) == if Concerns(last, e) then 1 else 0
    ensures Weight(init + [last], e) == Weight(init, e) + Weight([last], e)
  {
    assert (init + [last])[..|init|] == init && [last][..0] == [];
  }

  /** The count of a device is at most what sounds at each of its rules: when every rule's notes are released, it is 0. */
  lemma {:induction false} SoundsAtMostEach(own: seq<Rule>, note: Option<int>, s: seq<Entry>)
    ensures Sounding(own, note, s) <= SoundingEach(own, note, s)
    ensures (forall k :: 0 <= k < |own| ==> Sounding([own[k]], note, s) == 0) ==> Sounding(own, note, s) == 0
  {
    if own == [] {
      NoRuleNoSound(note, s);
    } else {
      SoundsAtMostEach(own[..|own| - 1], note, s);
      SoundsWithOneMore(own[..|own| - 1], own[|own| - 1], note, s);
      assert own == own[..|own| - 1] + [own[|own| - 1]];
    }
  }

  lemma {:induction false} NoRuleNoSound(note: Option<int>, s: seq<Entry>)
    ensures Sounding([], note, s) == 0
  {
    if s != [] { NoRuleNoSound(note, s[..|s| - 1]); }
  }

  // ---- monotonicity of the reference ----

  lemma {:induction false} SoundingMonotone(own: seq<Rule>, note: Option<int>, a: nat, b: nat, s: seq<Entry>)
    requires a <= b
    ensures SoundingFrom(own, note, a, s) <= SoundingFrom(own, note, b, s)
  {
    if s != [] { SoundingMonotone(own, note, a, b, s[..|s| - 1]); }
  }

  lemma {:induction false} SoundingConcat(own: seq<Rule>, note: Option<int>, c: nat, a: seq<Entry>, b: seq<Entry>)
    ensures SoundingFrom(own, note, c, a + b) == SoundingFrom(own, note, SoundingFrom(own, note, c, a), b)
  {
    if b == [] {
      assert a + b == a;
    } else {
      assert (a + b)[..|a + b| - 1] == a + b[..|b| - 1];
      SoundingConcat(own, note, c, a, b[..|b| - 1]);
    }
  }

  /** Forgetting an event that is no release can only lower the count. */
  lemma {:induction false} ForgettingAttack(own: seq<Rule>, note: Option<int>, c: nat, s: seq<Entry>, i: nat)
    requires i < |s| && !IsRelease(s[i].midi)
    ensures SoundingFrom(own, note, c, s[..i] + s[i + 1..]) <= SoundingFrom(own, note, c, s)
  {
    assert s == s[..i] + [s[i]] + s[i + 1..];
    SoundingConcat(own, note, c, s[..i] + [s[i]], s[i + 1..]);
    SoundingConcat(own, note, c, s[..i], [s[i]]);
    SoundingConcat(own, note, c, s[..i], s[i + 1..]);
    var before := SoundingFrom(own, note, c, s[..i]);
    assert SoundingFrom(own, note, before, [s[i]]) == SoundStep(own, note, before, s[i]) by { assert [s[i]][..0] == []; }
    SoundingMonotone(own, note, before, SoundStep(own, note, before, s[i]), s[i + 1..]);
  }
}
