/**
 Lighting rules told by the fields of rule and event: which events pass a rule by,
 and what the others do to the rule's device.
 */
module LightingFilters {
  import opened LightingRules
  import opened LightingDispatch
  import opened Wrappers

  datatype Filter = ByTrigger | ByChannel | ByVelocity | ByNote | ByController | ByControllerValue

  predicate Above(x: int, bound: Option<int>) { bound.Some? && x > bound.value }
  predicate Below(x: int, bound: Option<int>) { bound.Some? && x < bound.value }

  /** Does the event fall outside this filter? A filter that is not set, or an event without the field, passes; lists need the field. */
  predicate Outside(c: Condition, m: MidiData, f: Filter) {
    match f
    case ByTrigger => c.trigger.Only? && c.trigger.kind != m.kind
    case ByChannel => c.channels != [] && (m.channel == None || forall k :: 0 <= k < |c.channels| ==> m.channel != Some(c.channels[k]))
    case ByVelocity => m.velocity.Some? && (Below(m.velocity.value, c.velocityMin) || Above(m.velocity.value, c.velocityMax))
    case ByNote => m.note.Some? && (Below(m.note.value, c.noteMin) || Above(m.note.value, c.noteMax))
    case ByController =>
      c.ccNumbers != [] && (m.controller == None || forall k :: 0 <= k < |c.ccNumbers| ==> m.controller != Some(c.ccNumbers[k]))
    case ByControllerValue => m.kind == Cc && m.value.Some? && (Below(m.value.value, c.ccValueMin) || Above(m.value.value, c.ccValueMax))
  }

  predicate IsNoteEnd(m: MidiData) { m.kind == NoteOff || (m.kind == NoteOn && m.velocity == Some(0)) }

  /** The end of a note that the device holds, at a rule that attacks can light: it counts whatever its trigger and velocity. */
  predicate EndsHeldNote(c: Condition, d: Device, m: MidiData) {
    && IsNoteEnd(m) && m.note.Some? && d.notes.Some? && m.note in d.notes.value
    && (c.trigger == Any || c.trigger == Only(NoteOn))
  }

  /** An event outside one of the filters passes the rule by; so does one of another instrument. */
  lemma {:induction false} OutsideIsIgnored(rule: Rule, d: Device, e: Entry, f: Filter)
    requires e.instrument != rule.instrument || Outside(rule.condition, e.midi, f)
    requires e.instrument == rule.instrument && (f == ByTrigger || f == ByVelocity) ==> !EndsHeldNote(rule.condition, d, e.midi)
    ensures React(rule, d, e) == d
  {
  }

  /** The event is of the rule's instrument and inside all filters. */
  ghost predicate Answers(rule: Rule, e: Entry) {
    e.instrument == rule.instrument && forall f :: !Outside(rule.condition, e.midi, f)
  }

  lemma {:induction false} AnswersMatches(rule: Rule, e: Entry)
    ensures Answers(rule, e) <==> e.instrument == rule.instrument && MatchesCondition(rule.condition, e.midi)
  {
    var c, m := rule.condition, e.midi;
    if e.instrument == rule.instrument && !MatchesCondition(c, m) {
      assert Outside(c, m, ByTrigger) || Outside(c, m, ByChannel) || Outside(c, m, ByVelocity)
        || Outside(c, m, ByNote) || Outside(c, m, ByController) || Outside(c, m, ByControllerValue);
    }
  }

  /** An event that is inside all filters and ends no note lights the rule's LEDs; an attack is counted. */
  lemma {:induction false} InsideLights(rule: Rule, d: Device, e: Entry)
    requires Answers(rule, e) && !IsNoteEnd(e.midi)
    ensures React(rule, d, e).lit == d.lit + rule.leds
    ensures forall n :: Held(React(rule, d, e), n) == Held(d, n) + if IsStrike(e.midi) && n == e.midi.note then 1 else 0
  {
    AnswersMatches(rule, e);
  }

  predicate IsStrike(m: MidiData) { m.kind == NoteOn && m.velocity.Some? && m.velocity.value >= 1 }

  /**
   The end of a held note, inside the filters that say where the rule applies, takes
   one from its counter; with the last one of the device the rule's LEDs go off.
   */
  lemma {:induction false} InsideReleases(rule: Rule, d: Device, e: Entry)
    requires e.instrument == rule.instrument && EndsHeldNote(rule.condition, d, e.midi) && CountersOk(d)
    requires forall f :: f != ByTrigger && f != ByVelocity ==> !Outside(rule.condition, e.midi, f)
    ensures var after := React(rule, d, e);
      && (forall n :: Held(after, n) == Held(d, n) - if n == e.midi.note then 1 else 0)
      && after.lit == if forall n :: Held(after, n) == 0 then d.lit - rule.leds else d.lit
  {
    var c, m := rule.condition, e.midi;
    assert !Outside(c, m, ByChannel) && !Outside(c, m, ByNote) && !Outside(c, m, ByController) && !Outside(c, m, ByControllerValue);
    assert MatchesPairedRelease(c, d, m);
    var after := React(rule, d, e);
    ReleaseKeepsDevice(d, m.note, rule.leds);
    assert forall n :: n in after.notes.value ==> Held(after, n) > 0;
    assert (forall n :: Held(after, n) == 0) ==> after.notes.value == map[];
  }

  // ---- all rules ----

  /** The rules of a device that an event answers to. */
  ghost function Answering(rules: seq<Rule>, id: string, e: Entry): set<int> {
    set k | 0 <= k < |rules| && rules[k].device == id && Answers(rules[k], e)
  }

  lemma {:induction false} AnsweringSnoc(rules: seq<Rule>, id: string, e: Entry)
    requires rules != []
    ensures var n := |rules| - 1;
      Answering(rules, id, e) == Answering(rules[..n], id, e) + if rules[n].device == id && Answers(rules[n], e) then {n} else {}
  {
  }

  /** One event, all rules: what is lit on a device afterwards, and how often it holds each note, if the event ends no note. */
  lemma {:induction false} EventLights(rules: seq<Rule>, devices: map<string, Device>, e: Entry, id: string)
    requires !IsNoteEnd(e.midi)
    ensures var d, after := DeviceOf(devices, id), DeviceOf(ApplyEvent(rules, devices, e), id);
      && (forall led :: led in after.lit <==> led in d.lit || exists k :: k in Answering(rules, id, e) && led in rules[k].leds)
      && forall n :: Held(after, n) == Held(d, n) + if IsStrike(e.midi) && n == e.midi.note then |Answering(rules, id, e)| else 0
  {
    if rules != [] {
      var n, init := |rules| - 1, rules[..|rules| - 1];
      var rule, before := rules[n], DeviceOf(ApplyEvent(init, devices, e), id);
      EventLights(init, devices, e, id);
      AnsweringSnoc(rules, id, e);
      assert n !in Answering(init, id, e);
      assert forall k :: k in Answering(init, id, e) ==> init[k] == rules[k];
      if rule.device == id && Answers(rule, e) {
        InsideLights(rule, before, e);
      } else if rule.device == id {
        Unanswered(rule, before, e);
      }
      hide Answering, React, Answers, Held;
    }
  }

  lemma {:induction false} Unanswered(rule: Rule, d: Device, e: Entry)
    requires !Answers(rule, e) && !IsNoteEnd(e.midi)
    ensures React(rule, d, e) == d
  {
    AnswersMatches(rule, e);
  }

  /** An event that every rule of a device is passed by leaves the device alone. */
  lemma {:induction false} EventIgnored(rules: seq<Rule>, devices: map<string, Device>, e: Entry, id: string)
    requires forall k :: 0 <= k < |rules| && rules[k].device == id ==>
      e.instrument != rules[k].instrument || PlaceOutside(rules[k].condition, e.midi)
    ensures DeviceOf(ApplyEvent(rules, devices, e), id) == DeviceOf(devices, id)
  {
    if rules != [] {
      var n := |rules| - 1;
      EventIgnored(rules[..n], devices, e, id);
      if rules[n].device == id {
        PlaceIsIgnored(rules[n], DeviceOf(devices, id), e);
      }
      hide React;
    }
  }

  lemma {:induction false} PlaceIsIgnored(rule: Rule, d: Device, e: Entry)
    requires e.instrument != rule.instrument || PlaceOutside(rule.condition, e.midi)
    ensures React(rule, d, e) == d
  {
    var c, m := rule.condition, e.midi;
    OutsideIsIgnored(rule, d, e,
      if Outside(c, m, ByChannel) then ByChannel else if Outside(c, m, ByNote) then ByNote
      else if Outside(c, m, ByController) then ByController else ByControllerValue);
  }

  /** Outside one of the filters that say where a rule applies. */
  predicate PlaceOutside(c: Condition, m: MidiData) {
    Outside(c, m, ByChannel) || Outside(c, m, ByNote) || Outside(c, m, ByController) || Outside(c, m, ByControllerValue)
  }
}
