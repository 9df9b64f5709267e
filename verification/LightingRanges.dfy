/**
 Several rules on one device. They share its counters, but the last release
 switches off the LEDs of its own rule only.
 */
module LightingRanges {
  import opened LightingRules
  import opened LightingDispatch
  import opened LightingRuns
  import opened LightingSafety
  import opened LightingStranded
  import opened Wrappers

  /** An attack that rule `k` answers to and that concerns no other rule. */
  ghost predicate Answers(own: seq<Rule>, k: nat, e: Entry)
    requires k < |own|
  {
    Presses(own[k], e) && forall j :: 0 <= j < |own| && j != k ==> !Concerns(own[j], e)
  }

  ghost predicate HasOwnKey(own: seq<Rule>, k: nat)
    requires k < |own|
  {
    exists e :: Answers(own, k, e)
  }

  /** Every rule has a key of its own. */
  ghost predicate Independent(own: seq<Rule>) { forall k :: 0 <= k < |own| ==> HasOwnKey(own, k) }

  /** Both keys pressed, both released in the same order: what the first rule lit outside the second one's range stays. */
  lemma {:induction false} TwoKeys(a: Rule, b: Rule, ea: Entry, eb: Entry)
    requires a.condition.trigger == Only(NoteOn) && b.condition.trigger == Only(NoteOn) && Presses(a, ea) && Presses(b, eb)
    ensures var held := React(b, React(a, DARK, ea), eb);
      React(b, React(a, held, ReleaseOf(ea)), ReleaseOf(eb)).lit == a.leds - b.leds
  {
    var one := React(a, DARK, ea);
    var two := React(b, one, eb);
    PressReacts(a, DARK, ea);
    PressReacts(b, one, eb);
    ReleaseIsPaired(a, ea);
    ReleaseIsPaired(b, eb);
    hide React, HandleNoteOff;
    ReleaseReacts(a, two, ea);
    ReleaseKeepsDevice(two, ea.midi.note, a.leds);
    var three := React(a, two, ReleaseOf(ea));
    LightStays(two, ea.midi.note, a.leds, eb.midi.note);
    ReleaseReacts(b, three, eb);
    ReleaseKeepsDevice(three, eb.midi.note, b.leds);
    LastRelease(three, eb.midi.note, b.leds);
  }

  lemma {:induction false} LastRelease(d: Device, note: Option<int>, leds: Range)
    requires CountersOk(d) && Held(d, note) > 0 && forall n :: Held(HandleNoteOff(d, note, leds), n) == 0
    ensures HandleNoteOff(d, note, leds).lit == d.lit - leds
  {
    ReleaseKeepsDevice(d, note, leds);
    var after := HandleNoteOff(d, note, leds);
    assert forall n :: n in after.notes.value ==> Held(after, n) > 0;
    assert after.notes.value == map[];
  }

  lemma {:induction false} TwoKeysSound(own: seq<Rule>, ea: Entry, eb: Entry, note: Option<int>)
    requires WellFormed(ea.midi) && IsAttack(ea.midi) && WellFormed(eb.midi) && IsAttack(eb.midi)
    ensures Sounding(own, note, [] + [ea] + [eb] + [ReleaseOf(ea)] + [ReleaseOf(eb)]) == 0
  {
    SoundingSnoc(own, note, 0, [] + [ea] + [eb] + [ReleaseOf(ea)], ReleaseOf(eb));
    SoundingSnoc(own, note, 0, [] + [ea] + [eb], ReleaseOf(ea));
    SoundingSnoc(own, note, 0, [] + [ea], eb);
    SoundingSnoc(own, note, 0, [], ea);
    Drained(own, note, 0);
    SameWeight(own, ea);
    SameWeight(own, eb);
    ReleaseIsPaired(Rule("", "", ANYWHERE, {0}), ea);
    ReleaseIsPaired(Rule("", "", ANYWHERE, {0}), eb);
    hide SoundingFrom, Weight;
  }

  const ANYWHERE := Condition(Only(NoteOn), [], None, None, None, None, [], None, None)

  /** The two keys, played one event at a time. */
  function TwoKeyRun(ea: Entry, eb: Entry): seq<Op> { Play(Play(Play(Play([], ea), eb), ReleaseOf(ea)), ReleaseOf(eb)) }

  lemma {:induction false} TwoKeysStayLit(rules: seq<Rule>, limit: nat, id: string, a: nat, b: nat, ea: Entry, eb: Entry)
    requires limit > 0 && NoteOnRules(RulesOf(rules, id)) && a < |RulesOf(rules, id)| && b < |RulesOf(rules, id)| && a != b
    requires Answers(RulesOf(rules, id), a, ea) && Answers(RulesOf(rules, id), b, eb)
    ensures var own, w := RulesOf(rules, id), Run(Fresh(), TwoKeyRun(ea, eb), rules, limit);
      && RunHarmless(Fresh(), TwoKeyRun(ea, eb), rules, limit, id) && Quiet(w, own)
      && DeviceIn(w, id).lit == own[a].leds - own[b].leds
  {
    var own, oa, ob := RulesOf(rules, id), ReleaseOf(ea), ReleaseOf(eb);
    forall k: nat | k < |own| ensures (Concerns(own[k], oa) <==> Concerns(own[k], ea)) && (Concerns(own[k], ob) <==> Concerns(own[k], eb)) {
      ReleaseIsPaired(own[k], ea);
      ReleaseIsPaired(own[k], eb);
    }
    ReleaseIsPaired(own[a], ea);
    ReleaseIsPaired(own[b], eb);
    var d1 := React(own[a], DARK, ea);
    var d2 := React(own[b], d1, eb);
    var d3 := React(own[a], d2, oa);
    OneReacts(own, a, DARK, ea);
    OneReacts(own, b, d1, eb);
    OneReacts(own, a, d2, oa);
    OneReacts(own, b, d3, ob);
    TwoKeys(own[a], own[b], ea, eb);
    assert WellFormed(ea.midi) && IsAttack(ea.midi) && WellFormed(eb.midi) && IsAttack(eb.midi);
    hide React, ReactAll, Concerns, WellFormed, IsAttack, Presses, Answers, ReleaseOf, Run, RunHarmless, Play, Sounding;
    PlayOne(Fresh(), [], ea, rules, limit, id);
    PlayOne(Fresh(), Play([], ea), eb, rules, limit, id);
    PlayOne(Fresh(), Play(Play([], ea), eb), oa, rules, limit, id);
    PlayOne(Fresh(), Play(Play(Play([], ea), eb), oa), ob, rules, limit, id);
    forall note ensures Sounding(own, note, [] + [ea] + [eb] + [oa] + [ob]) == 0 { TwoKeysSound(own, ea, eb, note); }
  }

  /**
   When several rules on a device leave it dark. If each has a key of its own, the
   device goes dark after every harmless run that ends with all notes released, if and
   only if its rules light the same LEDs.
   */
  lemma {:induction false} RangesExactly(rules: seq<Rule>, limit: nat, id: string)
    requires limit > 0 && NoteOnRules(RulesOf(rules, id)) && Independent(RulesOf(rules, id))
    ensures GoesDark(Fresh(), rules, limit, id) <==> OneRange(RulesOf(rules, id))
  {
    var own := RulesOf(rules, id);
    if OneRange(own) {
      CoveredGoesDark(Fresh(), rules, limit, id);
    } else {
      var j, k :| 0 <= j < k < |own| && own[j].leds != own[k].leds;
      assert HasOwnKey(own, j) && HasOwnKey(own, k);
      var ej :| Answers(own, j, ej);
      var ek :| Answers(own, k, ek);
      TwoKeysStayLit(rules, limit, id, j, k, ej, ek);
      TwoKeysStayLit(rules, limit, id, k, j, ek, ej);
      assert own[j].leds - own[k].leds != {} || own[k].leds - own[j].leds != {};
    }
  }

  /** A keyboard split over two halves of a strip. */
  function SplitRules(): seq<Rule> {
    [Rule("strip", "piano", ANYWHERE.(noteMax := Some(59)), {0}), Rule("strip", "piano", ANYWHERE.(noteMin := Some(60)), {1})]
  }

  function Press(note: int): Entry { Entry("piano", MidiData(NoteOn, Some(0), Some(note), Some(100), None, None)) }

  /** It does not go dark: press 40, press 80, release 40, release 80. */
  lemma {:induction false} SplitKeyboardStaysLit(limit: nat)
    requires limit > 0
    ensures Quiet(Run(Fresh(), TwoKeyRun(Press(40), Press(80)), SplitRules(), limit), SplitRules())
    ensures DeviceIn(Run(Fresh(), TwoKeyRun(Press(40), Press(80)), SplitRules(), limit), "strip").lit == {0}
  {
    var rules := SplitRules();
    assert rules[..1] == [rules[0]] && rules[..1][..0] == [];
    assert RulesOf(rules, "strip") == rules;
    assert Answers(rules, 0, Press(40)) && Answers(rules, 1, Press(80));
    hide Run, RunHarmless, TwoKeyRun, Quiet;
    TwoKeysStayLit(rules, limit, "strip", 0, 1, Press(40), Press(80));
  }

  /** Two velocity layers of one key, on the same LEDs. */
  function Layers(): seq<Rule> {
    [Rule("strip", "piano", ANYWHERE.(velocityMax := Some(63)), {0}), Rule("strip", "piano", ANYWHERE.(velocityMin := Some(64)), {0})]
  }

  /**
   Where rules share events, a stranded hold may be used up: the press at velocity 100
   takes one hold, its release gives back one for each layer, and the device is dark.
   */
  lemma {:induction false} LayersUseUpAHold(d: Device)
    requires d == Device(Some(map[Some(60) := 1]), {})
    ensures ReactAll(Layers(), ReactAll(Layers(), d, Press(60)), ReleaseOf(Press(60))) == Device(Some(map[]), {})
  {
    var soft, loud, on, off := Layers()[0], Layers()[1], Press(60), ReleaseOf(Press(60));
    var one, two := map[Some(60) := 1], map[Some(60) := 2];
    assert one[Some(60) := 2] == two && two[Some(60) := 1] == one && one - {Some(60)} == map[];
    TwoReact(soft, loud, d, on);
    assert React(soft, d, on) == d;
    assert React(loud, d, on) == Device(Some(one[Some(60) := 2]), {0});
    TwoReact(soft, loud, Device(Some(two), {0}), off);
    assert React(soft, Device(Some(two), {0}), off) == Device(Some(two[Some(60) := 1]), {0});
    assert React(loud, Device(Some(one), {0}), off) == Device(Some(one - {Some(60)}), {});
  }

  lemma {:induction false} TwoReact(a: Rule, b: Rule, d: Device, e: Entry)
    ensures ReactAll([a, b], d, e) == React(b, React(a, d, e), e)
  {
    assert [a, b][..1] == [a] && [a][..0] == [];
    assert ReactAll([], d, e) == d;
  }
}
