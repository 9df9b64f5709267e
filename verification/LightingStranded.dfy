/**
 Where a light is stranded: which devices stay lit although every key is released,
 and how a blackout or an overflow brings that about.
 */
module LightingStranded {
  import opened LightingRules
  import opened LightingDispatch
  import opened LightingRuns
  import opened LightingSafety
  import opened Wrappers

  /** An attack the rule answers to. */
  predicate Presses(rule: Rule, e: Entry) {
    e.instrument == rule.instrument && WellFormed(e.midi) && IsAttack(e.midi) && MatchesCondition(rule.condition, e.midi)
  }

  ghost predicate Pressable(rule: Rule) { exists e :: Presses(rule, e) }

  /** Every harmless continuation that ends quiet leaves the device dark. */
  ghost predicate GoesDark(w: World, rules: seq<Rule>, limit: nat, id: string)
    requires limit > 0
  {
    forall ops :: RunHarmless(w, ops, rules, limit, id) && Quiet(Run(w, ops, rules, limit), RulesOf(rules, id))
      ==> DeviceIn(Run(w, ops, rules, limit), id).lit == {}
  }

  function ReleaseOf(e: Entry): Entry { e.(midi := e.midi.(kind := NoteOff, velocity := Some(0))) }

  lemma {:induction false} ReleaseIsPaired(rule: Rule, e: Entry)
    requires WellFormed(e.midi) && IsAttack(e.midi)
    ensures WellFormed(ReleaseOf(e).midi) && IsRelease(ReleaseOf(e).midi) && !IsAttack(ReleaseOf(e).midi)
    ensures Concerns(rule, ReleaseOf(e)) <==> Concerns(rule, e)
    ensures Presses(rule, e) ==> Concerns(rule, e)
  {
  }

  /** What a press and a release do to a device by a rule that they concern. */
  lemma {:induction false} ReleaseReacts(rule: Rule, d: Device, e: Entry)
    requires rule.condition.trigger == Only(NoteOn) && WellFormed(e.midi) && IsAttack(e.midi) && Concerns(rule, e)
    requires Held(d, e.midi.note) > 0
    ensures React(rule, d, ReleaseOf(e)) == HandleNoteOff(d, e.midi.note, rule.leds)
  {
    ReleaseIsPaired(rule, e);
  }

  lemma {:induction false} PressReacts(rule: Rule, d: Device, e: Entry)
    requires Presses(rule, e)
    ensures var d' := React(rule, d, e);
      d' == TrackNoteOn(d, e.midi.note).(lit := d.lit + rule.leds)
      && (CountersOk(d) ==> CountersOk(d'))
      && forall n :: Held(d', n) == if n == e.midi.note then Held(d, n) + 1 else Held(d, n)
  {
  }

  /** One event pushed onto an empty queue and drained. */
  function Play(ops: seq<Op>, e: Entry): seq<Op> { ops + [DoPush(e)] + [DoDrain(1)] }

  lemma {:induction false} RunSnoc(w: World, ops: seq<Op>, op: Op, rules: seq<Rule>, limit: nat, id: string)
    requires limit > 0
    ensures Run(w, ops + [op], rules, limit) == Step(Run(w, ops, rules, limit), op, rules, limit)
    ensures RunHarmless(w, ops + [op], rules, limit, id)
       <==> RunHarmless(w, ops, rules, limit, id) && Harmless(Run(w, ops, rules, limit), op, RulesOf(rules, id), limit, id)
  {
    assert (ops + [op])[..|ops|] == ops;
  }

  lemma {:induction false} DrainOne(c: Core, rules: seq<Rule>, id: string)
    requires |c.pending| == 1
    ensures var d := Drain(c, rules, 1);
      d.pending == [] && DeviceOf(d.devices, id) == ReactAll(RulesOf(rules, id), DeviceOf(c.devices, id), c.pending[0])
  {
    var p := c.pending;
    assert p[..1] == p && p[..|p| - 1] == [];
    assert ApplyAll(rules, c.devices, p) == ApplyEvent(rules, ApplyAll(rules, c.devices, []), p[0]);
    ApplyEventPerDevice(rules, c.devices, p[0], id);
  }

  lemma {:induction false} PlayOne(w: World, ops: seq<Op>, e: Entry, rules: seq<Rule>, limit: nat, id: string)
    requires limit > 0 && WellFormed(e.midi)
    requires RunHarmless(w, ops, rules, limit, id) && Run(w, ops, rules, limit).core.pending == []
    ensures var before, after := Run(w, ops, rules, limit), Run(w, Play(ops, e), rules, limit);
      && RunHarmless(w, Play(ops, e), rules, limit, id) && after.core.pending == [] && after.pushed == before.pushed + [e]
      && DeviceIn(after, id) == ReactAll(RulesOf(rules, id), DeviceIn(before, id), e)
  {
    RunSnoc(w, ops, DoPush(e), rules, limit, id);
    RunSnoc(w, ops + [DoPush(e)], DoDrain(1), rules, limit, id);
    DrainOne(Push(Run(w, ops, rules, limit).core, e, limit), rules, id);
  }

  // ---- rules that no event shares ----

  /** No event concerns two of the rules. A single rule is so, and the parts of a split keyboard are. */
  ghost predicate Disjoint(own: seq<Rule>) {
    forall e, j, k :: 0 <= j < |own| && 0 <= k < |own| && Concerns(own[j], e) && Concerns(own[k], e) ==> j == k
  }

  lemma {:induction false} Unconcerned(rule: Rule, d: Device, e: Entry)
    requires !Concerns(rule, e)
    ensures React(rule, d, e) == d
  {
  }

  lemma {:induction false} NoneReacts(own: seq<Rule>, d: Device, e: Entry)
    requires forall j :: 0 <= j < |own| ==> !Concerns(own[j], e)
    ensures ReactAll(own, d, e) == d && Weight(own, e) == 0
  {
    if own != [] {
      NoneReacts(own[..|own| - 1], d, e);
      Unconcerned(own[|own| - 1], d, e);
    }
  }

  lemma {:induction false} OneReacts(own: seq<Rule>, k: nat, d: Device, e: Entry)
    requires k < |own| && Concerns(own[k], e) && forall j :: 0 <= j < |own| && j != k ==> !Concerns(own[j], e)
    ensures ReactAll(own, d, e) == React(own[k], d, e) && Weight(own, e) == 1
  {
    var n := |own| - 1;
    hide React, Concerns;
    if k == n {
      NoneReacts(own[..n], d, e);
    } else {
      OneReacts(own[..n], k, d, e);
      Unconcerned(own[n], ReactAll(own[..n], d, e), e);
    }
  }

  /** The rule that an event concerns. */
  lemma {:induction false} ConcernedRule(own: seq<Rule>, e: Entry) returns (k: nat)
    requires Weight(own, e) > 0
    ensures k < |own| && Concerns(own[k], e)
  {
    k := |own| - 1;
    if !Concerns(own[k], e) { k := ConcernedRule(own[..k], e); }
  }

  /** An attack of `note` where one of the rules applies. */
  predicate Strikes(own: seq<Rule>, note: Option<int>, e: Entry) { Weight(own, e) > 0 && e.midi.note == note && IsAttack(e.midi) }

  lemma {:induction false} SoundingWasStruck(own: seq<Rule>, note: Option<int>, s: seq<Entry>)
    requires Sounding(own, note, s) > 0
    ensures StruckIn(own, note, s, 0)
  {
    var last := s[|s| - 1];
    hide Weight;
    if Sounding(own, note, s[..|s| - 1]) > 0 { SoundingWasStruck(own, note, s[..|s| - 1]); }
    assert Sounding(own, note, s[..|s| - 1]) == 0 ==> Strikes(own, note, last);
  }

  /** A sounding note released once: one less sounds, one less is held, and a device that holds another keeps its light. */
  lemma {:induction false} ReleaseOne(own: seq<Rule>, d: Device, e: Entry, pushed: seq<Entry>, n: Option<int>)
    requires NoteOnRules(own) && Disjoint(own) && CountersOk(d) && WellFormed(e.midi) && Strikes(own, e.midi.note, e)
    requires Sounding(own, e.midi.note, pushed) > 0 && Held(d, n) > Sounding(own, n, pushed)
    ensures forall note ::
      Sounding(own, note, pushed + [ReleaseOf(e)]) == Sounding(own, note, pushed) - if note == e.midi.note then 1 else 0
    ensures var d' := ReactAll(own, d, ReleaseOf(e));
      WellFormed(ReleaseOf(e).midi) && CountersOk(d') && Held(d', n) > Sounding(own, n, pushed + [ReleaseOf(e)]) && d'.lit == d.lit
  {
    var off := ReleaseOf(e);
    var k := ConcernedRule(own, e);
    ReleaseIsPaired(own[k], e);
    OneReacts(own, k, d, off);
    hide Weight, ReactAll, Disjoint;
    forall note
      ensures Sounding(own, note, pushed + [off]) == Sounding(own, note, pushed) - if note == e.midi.note then 1 else 0
    {
      SoundingSnoc(own, note, 0, pushed, off);
    }
    hide Sounding;
    if Held(d, e.midi.note) > 0 {
      ReleaseReacts(own[k], d, e);
      ReleaseKeepsDevice(d, e.midi.note, own[k].leds);
    } else {
      NothingToRelease(own[k], d, e);
    }
  }

  lemma {:induction false} NothingToRelease(rule: Rule, d: Device, e: Entry)
    requires rule.condition.trigger == Only(NoteOn) && CountersOk(d) && Held(d, e.midi.note) == 0
    ensures React(rule, d, ReleaseOf(e)) == d
  {
  }

  predicate StruckIn(own: seq<Rule>, note: Option<int>, struck: seq<Entry>, k: nat) {
    exists j :: k <= j < |struck| && Strikes(own, note, struck[j])
  }

  /** What still sounds was struck by one of the events from `k` on. */
  ghost predicate StruckFrom(own: seq<Rule>, struck: seq<Entry>, k: nat, pushed: seq<Entry>) {
    forall note :: Sounding(own, note, pushed) > 0 ==> StruckIn(own, note, struck, k)
  }

  /** All that sounds can be released, one by one, while a hold beyond it stays. */
  lemma {:induction false} Hush(w: World, ops: seq<Op>, k: nat, n: Option<int>, rules: seq<Rule>, limit: nat, id: string)
    returns (all: seq<Op>)
    requires limit > 0 && NoteOnRules(RulesOf(rules, id)) && Disjoint(RulesOf(rules, id))
    requires AllWellFormed(w.pushed) && k <= |w.pushed| && RunHarmless(w, ops, rules, limit, id)
    requires var before, own := Run(w, ops, rules, limit), RulesOf(rules, id);
      && before.core.pending == [] && CountersOk(DeviceIn(before, id)) && StruckFrom(own, w.pushed, k, before.pushed)
      && Held(DeviceIn(before, id), n) > Sounding(own, n, before.pushed)
    ensures RunHarmless(w, all, rules, limit, id)
    ensures var before, after := Run(w, ops, rules, limit), Run(w, all, rules, limit);
      && Quiet(after, RulesOf(rules, id)) && CountersOk(DeviceIn(after, id)) && Held(DeviceIn(after, id), n) > 0
      && DeviceIn(after, id).lit == DeviceIn(before, id).lit
    decreases |w.pushed| - k,
      if k < |w.pushed| then Sounding(RulesOf(rules, id), w.pushed[k].midi.note, Run(w, ops, rules, limit).pushed) else 0
  {
    var before, own := Run(w, ops, rules, limit), RulesOf(rules, id);
    hide Run, RunHarmless, Sounding, Strikes, WellFormed, ReactAll, CountersOk, Play, Disjoint, NoteOnRules, RulesOf;
    if k == |w.pushed| {
      all := ops;
    } else {
      var e := w.pushed[k];
      if Strikes(own, e.midi.note, e) && Sounding(own, e.midi.note, before.pushed) > 0 {
        ReleaseOne(own, DeviceIn(before, id), e, before.pushed, n);
        PlayOne(w, ops, ReleaseOf(e), rules, limit, id);
        all := Hush(w, Play(ops, ReleaseOf(e)), k, n, rules, limit, id);
      } else {
        StruckLater(own, w.pushed, k, before.pushed);
        all := Hush(w, ops, k + 1, n, rules, limit, id);
      }
    }
  }

  lemma {:induction false} StruckLater(own: seq<Rule>, struck: seq<Entry>, k: nat, pushed: seq<Entry>)
    requires k < |struck| && StruckFrom(own, struck, k, pushed)
    requires !(Strikes(own, struck[k].midi.note, struck[k]) && Sounding(own, struck[k].midi.note, pushed) > 0)
    ensures StruckFrom(own, struck, k + 1, pushed)
  {
    hide Sounding;
    forall note | Sounding(own, note, pushed) > 0 ensures StruckIn(own, note, struck, k + 1) {
      var j :| k <= j < |struck| && Strikes(own, note, struck[j]);
      assert j != k;
    }
  }

  /** The device after a stroke: a press and a release of one key. */
  lemma {:induction false} StrokeOnDevice(own: seq<Rule>, k: nat, d: Device, e: Entry)
    requires NoteOnRules(own) && Disjoint(own) && k < |own| && Presses(own[k], e) && CountersOk(d)
    ensures WellFormed(e.midi) && WellFormed(ReleaseOf(e).midi) && IsAttack(e.midi)
    ensures var pressed := ReactAll(own, d, e);
      && CountersOk(pressed) && pressed.lit == d.lit + own[k].leds
      && (forall n :: Held(pressed, n) == if n == e.midi.note then Held(d, n) + 1 else Held(d, n))
      && ReactAll(own, pressed, ReleaseOf(e)) == HandleNoteOff(pressed, e.midi.note, own[k].leds)
  {
    ReleaseIsPaired(own[k], e);
    PressReacts(own[k], d, e);
    OneReacts(own, k, d, e);
    OneReacts(own, k, React(own[k], d, e), ReleaseOf(e));
    hide React, Disjoint;
    ReleaseReacts(own[k], React(own[k], d, e), e);
  }

  /** A stroke in a quiet world, on a device that holds a note: it ends quiet again, and lit. */
  lemma {:induction false} Stroke(w: World, ops: seq<Op>, k: nat, e: Entry, n: Option<int>, rules: seq<Rule>, limit: nat, id: string)
    requires limit > 0 && NoteOnRules(RulesOf(rules, id)) && Disjoint(RulesOf(rules, id))
    requires k < |RulesOf(rules, id)| && Presses(RulesOf(rules, id)[k], e) && RunHarmless(w, ops, rules, limit, id)
    requires var before := Run(w, ops, rules, limit);
      Quiet(before, RulesOf(rules, id)) && CountersOk(DeviceIn(before, id)) && Held(DeviceIn(before, id), n) > 0
    ensures var all := Play(Play(ops, e), ReleaseOf(e));
      && RunHarmless(w, all, rules, limit, id) && Quiet(Run(w, all, rules, limit), RulesOf(rules, id))
      && DeviceIn(Run(w, all, rules, limit), id).lit != {}
  {
    var before, own := Run(w, ops, rules, limit), RulesOf(rules, id);
    var d := DeviceIn(before, id);
    var pressed := ReactAll(own, d, e);
    StrokeOnDevice(own, k, d, e);
    forall note ensures Sounding(own, note, before.pushed + [e] + [ReleaseOf(e)]) == 0 { StrokeSounds(own, note, before.pushed, e); }
    hide Run, RunHarmless, Sounding, ReactAll, Play, Presses, IsAttack, WellFormed, ReleaseOf, Disjoint, RulesOf, NoteOnRules, HandleNoteOff;
    PlayOne(w, ops, e, rules, limit, id);
    PlayOne(w, Play(ops, e), ReleaseOf(e), rules, limit, id);
    ReleaseKeepsDevice(pressed, e.midi.note, own[k].leds);
    LightStays(pressed, e.midi.note, own[k].leds, n);
  }

  lemma {:induction false} LightStays(d: Device, note: Option<int>, leds: Range, n: Option<int>)
    requires CountersOk(d) && Held(HandleNoteOff(d, note, leds), n) > 0
    ensures HandleNoteOff(d, note, leds).lit == d.lit
  {
  }

  /** A press and a release leave as many notes sounding as before. */
  lemma {:induction false} StrokeSounds(own: seq<Rule>, note: Option<int>, pushed: seq<Entry>, e: Entry)
    requires WellFormed(e.midi) && IsAttack(e.midi)
    ensures Weight(own, ReleaseOf(e)) == Weight(own, e)
    ensures Sounding(own, note, pushed + [e] + [ReleaseOf(e)]) == Sounding(own, note, pushed)
  {
    SoundingSnoc(own, note, 0, pushed + [e], ReleaseOf(e));
    SoundingSnoc(own, note, 0, pushed, e);
    SameWeight(own, e);
  }

  lemma {:induction false} SameWeight(own: seq<Rule>, e: Entry)
    requires WellFormed(e.midi) && IsAttack(e.midi)
    ensures Weight(own, ReleaseOf(e)) == Weight(own, e)
  {
    if own != [] {
      SameWeight(own[..|own| - 1], e);
      ReleaseIsPaired(own[|own| - 1], e);
    }
  }

  ghost predicate AnyPressable(own: seq<Rule>) { exists k :: 0 <= k < |own| && Pressable(own[k]) }

  /** Rules that no attack matches never light their device. */
  lemma {:induction false} UnpressableReact(own: seq<Rule>, d: Device, e: Entry)
    requires NoteOnRules(own) && !AnyPressable(own) && WellFormed(e.midi) && d.lit == {}
    ensures ReactAll(own, d, e).lit == {}
  {
    if own != [] {
      var init, last := own[..|own| - 1], own[|own| - 1];
      assert forall k :: 0 <= k < |init| ==> own[k] == init[k];
      UnpressableReact(init, d, e);
      assert !Pressable(last);
      assert !Presses(last, e);
      hide ReactAll;
    }
  }

  lemma {:induction false} UnpressableStaysOff(rules: seq<Rule>, devices: map<string, Device>, s: seq<Entry>, id: string)
    requires NoteOnRules(RulesOf(rules, id)) && !AnyPressable(RulesOf(rules, id))
    requires AllWellFormed(s) && DeviceOf(devices, id).lit == {}
    ensures DeviceOf(ApplyAll(rules, devices, s), id).lit == {}
  {
    if s != [] {
      var init, last := s[..|s| - 1], s[|s| - 1];
      UnpressableStaysOff(rules, devices, init, id);
      var mid := ApplyAll(rules, devices, init);
      ApplyEventPerDevice(rules, mid, last, id);
      UnpressableReact(RulesOf(rules, id), DeviceOf(mid, id), last);
    }
  }

  lemma {:induction false} UnpressableRun(w: World, ops: seq<Op>, rules: seq<Rule>, limit: nat, id: string)
    requires limit > 0 && NoteOnRules(RulesOf(rules, id)) && !AnyPressable(RulesOf(rules, id))
    requires WellFormedPushes(ops) && Orderly(w, id) && DeviceIn(w, id).lit == {}
    ensures DeviceIn(Run(w, ops, rules, limit), id).lit == {}
  {
    if ops != [] {
      var init, op := ops[..|ops| - 1], ops[|ops| - 1];
      UnpressableRun(w, init, rules, limit, id);
      RunKeepsOrderly(w, init, rules, limit, id);
      if op.DoDrain? {
        var c := Run(w, init, rules, limit).core;
        UnpressableStaysOff(rules, c.devices, c.pending[..DrainCount(c.pending, op.budget)], id);
      }
    }
  }

  /** A device that counts more than sounds does not go dark, if it is lit or can be lit. */
  lemma {:induction false} StrandedStaysLit(w: World, n: Option<int>, rules: seq<Rule>, limit: nat, id: string)
    requires limit > 0 && NoteOnRules(RulesOf(rules, id)) && Disjoint(RulesOf(rules, id))
    requires w.core.pending == [] && AllWellFormed(w.pushed) && CountersOk(DeviceIn(w, id))
    requires Held(DeviceIn(w, id), n) > Sounding(RulesOf(rules, id), n, w.pushed)
    requires DeviceIn(w, id).lit != {} || AnyPressable(RulesOf(rules, id))
    ensures !GoesDark(w, rules, limit, id)
  {
    var own := RulesOf(rules, id);
    forall note | Sounding(own, note, w.pushed) > 0 ensures StruckIn(own, note, w.pushed, 0) { SoundingWasStruck(own, note, w.pushed); }
    var ops := Hush(w, [], 0, n, rules, limit, id);
    if DeviceIn(w, id).lit == {} {
      var k :| 0 <= k < |own| && Pressable(own[k]);
      var e :| Presses(own[k], e);
      Stroke(w, ops, k, e, n, rules, limit, id);
    }
  }

  /**
   Where a light is stranded. With rules that no event shares and that light the same
   LEDs, a drained device goes dark after every harmless continuation that releases all
   its notes, if and only if what sounds covers its counters (or it is dark, and no
   attack matches any of its rules).
   */
  lemma {:induction false} GoesDarkExactly(w: World, rules: seq<Rule>, limit: nat, id: string)
    requires limit > 0 && NoteOnRules(RulesOf(rules, id)) && Disjoint(RulesOf(rules, id)) && OneRange(RulesOf(rules, id))
    requires w.core.pending == [] && AllWellFormed(w.pushed) && CountersOk(DeviceIn(w, id))
    requires LitOk(DeviceIn(w, id), LedsOf(RulesOf(rules, id)))
    ensures GoesDark(w, rules, limit, id)
       <==> Covered(w, RulesOf(rules, id), id) || (DeviceIn(w, id).lit == {} && !AnyPressable(RulesOf(rules, id)))
  {
    if Covered(w, RulesOf(rules, id), id) {
      CoveredGoesDark(w, rules, limit, id);
    } else if DeviceIn(w, id).lit == {} && !AnyPressable(RulesOf(rules, id)) {
      forall ops | RunHarmless(w, ops, rules, limit, id) ensures DeviceIn(Run(w, ops, rules, limit), id).lit == {} {
        HarmlessIsWellFormed(w, ops, rules, limit, id);
        UnpressableRun(w, ops, rules, limit, id);
      }
    } else {
      var n :| Held(DeviceIn(w, id), n) > Sounding(RulesOf(rules, id), n, w.pushed);
      StrandedStaysLit(w, n, rules, limit, id);
    }
  }

  /** With any number of rules that share a range, a drained device whose counters are covered goes dark. */
  lemma {:induction false} CoveredGoesDark(w: World, rules: seq<Rule>, limit: nat, id: string)
    requires limit > 0 && NoteOnRules(RulesOf(rules, id)) && OneRange(RulesOf(rules, id)) && Covered(w, RulesOf(rules, id), id)
    requires w.core.pending == [] && CountersOk(DeviceIn(w, id)) && LitOk(DeviceIn(w, id), LedsOf(RulesOf(rules, id)))
    ensures GoesDark(w, rules, limit, id)
  {
    var own := RulesOf(rules, id);
    assert Safe(w, own, id) by {
      forall note ensures SoundingFrom(own, note, Held(DeviceIn(w, id), note), []) <= Sounding(own, note, w.pushed) {
        Drained(own, note, Held(DeviceIn(w, id), note));
      }
    }
    forall ops | RunHarmless(w, ops, rules, limit, id) && Quiet(Run(w, ops, rules, limit), own)
      ensures DeviceIn(Run(w, ops, rules, limit), id).lit == {}
    {
      NoLightStaysOn(w, ops, rules, limit, id);
    }
  }

  // ---- runs that strand a light ----

  /** The device after a press that was drained: it holds the note once. */
  lemma {:induction false} Pressed(rules: seq<Rule>, k: nat, limit: nat, id: string, e: Entry)
    requires limit > 0 && NoteOnRules(RulesOf(rules, id)) && Disjoint(RulesOf(rules, id))
    requires k < |RulesOf(rules, id)| && Presses(RulesOf(rules, id)[k], e)
    ensures var w := Run(Fresh(), Play([], e), rules, limit);
      && w.core.pending == [] && w.pushed == [e] && CountersOk(DeviceIn(w, id)) && Held(DeviceIn(w, id), e.midi.note) == 1
    ensures WellFormed(e.midi) && WellFormed(ReleaseOf(e).midi) && IsRelease(ReleaseOf(e).midi) && Pressable(RulesOf(rules, id)[k])
    ensures forall note :: Sounding(RulesOf(rules, id), note, [e] + [ReleaseOf(e)]) == 0
  {
    var own := RulesOf(rules, id);
    StrokeOnDevice(own, k, DARK, e);
    PlayOne(Fresh(), [], e, rules, limit, id);
    assert [] + [e] == [e];
    forall note ensures Sounding(own, note, [e] + [ReleaseOf(e)]) == 0 {
      StrokeSounds(own, note, [], e);
      Drained(own, note, 0);
    }
  }

  /**
   A blackout strands any light: with every rule that answers to an attack, and every
   queue limit, the run below loses one release. It ends drained and released, its
   device holds a note, and it does not go dark.
   */
  lemma {:induction false} BlackoutCanStrandALight(rules: seq<Rule>, k: nat, limit: nat, id: string, e: Entry)
    requires limit > 0 && NoteOnRules(RulesOf(rules, id)) && Disjoint(RulesOf(rules, id))
    requires k < |RulesOf(rules, id)| && Presses(RulesOf(rules, id)[k], e)
    ensures var w := Run(Fresh(), Play([], e) + [DoPush(ReleaseOf(e))] + [DoBlackout], rules, limit);
      && Quiet(w, RulesOf(rules, id)) && Held(DeviceIn(w, id), e.midi.note) == 1 && !GoesDark(w, rules, limit, id)
  {
    var start := Play([], e);
    Pressed(rules, k, limit, id, e);
    RunSnoc(Fresh(), start, DoPush(ReleaseOf(e)), rules, limit, id);
    RunSnoc(Fresh(), start + [DoPush(ReleaseOf(e))], DoBlackout, rules, limit, id);
    var w := Run(Fresh(), start + [DoPush(ReleaseOf(e))] + [DoBlackout], rules, limit);
    hide Run, Disjoint, NoteOnRules;
    assert w.pushed == [e] + [ReleaseOf(e)];
    StrandedStaysLit(w, e.midi.note, rules, limit, id);
  }

  function Copies(f: Entry, k: nat): (s: seq<Entry>)
    ensures |s| == k && forall j :: 0 <= j < k ==> s[j] == f
  {
    if k == 0 then [] else Copies(f, k - 1) + [f]
  }

  function Flood(ops: seq<Op>, f: Entry, k: nat): seq<Op> {
    if k == 0 then ops else Flood(ops, f, k - 1) + [DoPush(f)]
  }

  /** Pushing `f` again and again behind `first`: the queue fills, and the push that finds it full drops `first`. */
  lemma {:induction false} FloodFills(ops: seq<Op>, first: Entry, f: Entry, k: nat, rules: seq<Rule>, limit: nat)
    requires 0 < limit && k <= limit && IsRelease(first.midi) && IsRelease(f.midi)
    requires Run(Fresh(), ops, rules, limit).core.pending == [first]
    ensures var before, w := Run(Fresh(), ops, rules, limit), Run(Fresh(), Flood(ops, f, k), rules, limit);
      && w.core.pending == (if k < limit then [first] else []) + Copies(f, k)
      && w.core.devices == before.core.devices && w.pushed == before.pushed + Copies(f, k)
  {
    if k > 0 {
      FloodFills(ops, first, f, k - 1, rules, limit);
      RunSnoc(Fresh(), Flood(ops, f, k - 1), DoPush(f), rules, limit, "");
      var before, w := Run(Fresh(), ops, rules, limit), Run(Fresh(), Flood(ops, f, k - 1), rules, limit);
      hide Run, RunHarmless, Flood, Push, IsRelease;
      OneMoreCopy(before.pushed, f, k);
      OneMoreCopy([first], f, k);
      OneMoreCopy([], f, k);
      PushBehind(first, Copies(f, k - 1), f, w.core, limit);
    }
  }

  lemma {:induction false} OneMoreCopy(s: seq<Entry>, f: Entry, k: nat)
    requires k > 0
    ensures s + Copies(f, k - 1) + [f] == s + Copies(f, k)
  {
  }

  lemma {:induction false} PushBehind(first: Entry, rest: seq<Entry>, f: Entry, c: Core, limit: nat)
    requires c.pending == [first] + rest && |rest| < limit && IsRelease(first.midi)
    requires forall j :: 0 <= j < |rest| ==> IsRelease(rest[j].midi)
    ensures Push(c, f, limit).pending == (if |rest| + 1 < limit then [first] else []) + rest + [f]
    ensures Push(c, f, limit).devices == c.devices
  {
    if |rest| + 1 >= limit {
      assert Victim(c.pending) == 0 && c.pending[..0] + c.pending[1..] == [] + rest;
    }
  }

  /** Does `f` release no note of `n` where one of the rules applies? */
  predicate Beside(own: seq<Rule>, n: Option<int>, f: Entry) {
    WellFormed(f.midi) && IsRelease(f.midi) && (f.midi.note != n || Weight(own, f) == 0)
  }

  lemma {:induction false} BesideReact(own: seq<Rule>, d: Device, f: Entry, n: Option<int>)
    requires CountersOk(d) && Beside(own, n, f)
    ensures CountersOk(ReactAll(own, d, f)) && Held(ReactAll(own, d, f), n) == Held(d, n)
  {
    if own != [] {
      var init, last := own[..|own| - 1], own[|own| - 1];
      BesideReact(init, d, f, n);
      assert f.midi.note != n || !Concerns(last, f);
      var d' := ReactAll(init, d, f);
      hide ReactAll, Weight;
      Unlit(last, d', f);
      if Concerns(last, f) { ReleaseKeepsDevice(d', f.midi.note, last.leds); } else { Unconcerned(last, d', f); }
    }
  }

  /** A release does no more to a device than taking back a hold of its note. */
  lemma {:induction false} Unlit(rule: Rule, d: Device, f: Entry)
    requires IsRelease(f.midi)
    ensures React(rule, d, f) == d || React(rule, d, f) == HandleNoteOff(d, f.midi.note, rule.leds)
  {
  }

  lemma {:induction false} BesideKeepsHeld(rules: seq<Rule>, devices: map<string, Device>, f: Entry, k: nat, id: string, n: Option<int>)
    requires CountersOk(DeviceOf(devices, id)) && Beside(RulesOf(rules, id), n, f)
    ensures var after := DeviceOf(ApplyAll(rules, devices, Copies(f, k)), id);
      CountersOk(after) && Held(after, n) == Held(DeviceOf(devices, id), n)
  {
    if k > 0 {
      BesideKeepsHeld(rules, devices, f, k - 1, id, n);
      assert Copies(f, k)[..k - 1] == Copies(f, k - 1);
      assert Copies(f, k)[k - 1] == f;
      var mid := ApplyAll(rules, devices, Copies(f, k - 1));
      assert ApplyAll(rules, devices, Copies(f, k)) == ApplyEvent(rules, mid, f);
      hide ApplyAll, ApplyEvent, RulesOf, Beside, Held, CountersOk, ReactAll, Copies;
      ApplyEventPerDevice(rules, mid, f, id);
      BesideReact(RulesOf(rules, id), DeviceOf(mid, id), f, n);
    }
  }

  lemma {:induction false} BesideIsSilent(own: seq<Rule>, note: Option<int>, pushed: seq<Entry>, f: Entry, k: nat)
    requires IsRelease(f.midi) && Sounding(own, note, pushed) == 0
    ensures Sounding(own, note, pushed + Copies(f, k)) == 0
  {
    if k == 0 {
      assert pushed + Copies(f, 0) == pushed;
    } else {
      BesideIsSilent(own, note, pushed, f, k - 1);
      SoundingSnoc(own, note, 0, pushed + Copies(f, k - 1), f);
      assert pushed + Copies(f, k) == pushed + Copies(f, k - 1) + [f];
    }
  }

  /** A press that was drained, and its release still pending. */
  lemma {:induction false} ReleasePending(rules: seq<Rule>, k: nat, limit: nat, id: string, e: Entry)
    requires limit > 0 && NoteOnRules(RulesOf(rules, id)) && Disjoint(RulesOf(rules, id))
    requires k < |RulesOf(rules, id)| && Presses(RulesOf(rules, id)[k], e)
    ensures WellFormed(e.midi) && WellFormed(ReleaseOf(e).midi) && IsRelease(ReleaseOf(e).midi)
    ensures var w := Run(Fresh(), Play([], e) + [DoPush(ReleaseOf(e))], rules, limit);
      && w.core.pending == [ReleaseOf(e)] && w.pushed == [e] + [ReleaseOf(e)]
      && CountersOk(DeviceIn(w, id)) && Held(DeviceIn(w, id), e.midi.note) == 1
  {
    Pressed(rules, k, limit, id, e);
    RunSnoc(Fresh(), Play([], e), DoPush(ReleaseOf(e)), rules, limit, id);
    assert [] + [ReleaseOf(e)] == [ReleaseOf(e)];
  }

  /** The flood run in steps: press and drain, the release, `limit` other releases, drain. */
  lemma {:induction false} FloodRun(rules: seq<Rule>, k: nat, limit: nat, id: string, e: Entry, f: Entry)
    requires limit > 0 && NoteOnRules(RulesOf(rules, id)) && Disjoint(RulesOf(rules, id))
    requires k < |RulesOf(rules, id)| && Presses(RulesOf(rules, id)[k], e)
    requires Beside(RulesOf(rules, id), e.midi.note, f)
    ensures var w := Run(Fresh(), Flood(Play([], e) + [DoPush(ReleaseOf(e))], f, limit) + [DoDrain(limit)], rules, limit);
      && w.core.pending == [] && w.pushed == [e] + [ReleaseOf(e)] + Copies(f, limit)
      && CountersOk(DeviceIn(w, id)) && Held(DeviceIn(w, id), e.midi.note) == 1
  {
    var start := Play([], e) + [DoPush(ReleaseOf(e))];
    var c, w := Run(Fresh(), start, rules, limit), Run(Fresh(), Flood(start, f, limit), rules, limit);
    ReleasePending(rules, k, limit, id, e);
    assert IsRelease(f.midi);
    hide Run, RunHarmless, Play, Flood, IsRelease, WellFormed, CountersOk, Concerns, ReleaseOf, Held, RulesOf, ApplyAll, Copies, Beside, Disjoint;
    FloodFills(start, ReleaseOf(e), f, limit, rules, limit);
    BesideKeepsHeld(rules, c.core.devices, f, limit, id, e.midi.note);
    assert w.core.pending == Copies(f, limit) by { assert [] + Copies(f, limit) == Copies(f, limit); }
    DrainAll(w.core, rules, limit);
    RunSnoc(Fresh(), Flood(start, f, limit), DoDrain(limit), rules, limit, id);
  }

  lemma {:induction false} DrainAll(c: Core, rules: seq<Rule>, limit: nat)
    requires |c.pending| == limit
    ensures Drain(c, rules, limit).pending == [] && Drain(c, rules, limit).devices == ApplyAll(rules, c.devices, c.pending)
  {
    assert c.pending[..limit] == c.pending;
  }

  /** An overflow does it too: the release is dropped when `limit` releases of other notes come before the next drain. */
  lemma {:induction false} OverflowCanStrandALight(rules: seq<Rule>, k: nat, limit: nat, id: string, e: Entry, f: Entry)
    requires limit > 0 && NoteOnRules(RulesOf(rules, id)) && Disjoint(RulesOf(rules, id))
    requires k < |RulesOf(rules, id)| && Presses(RulesOf(rules, id)[k], e)
    requires Beside(RulesOf(rules, id), e.midi.note, f)
    ensures var w := Run(Fresh(), Flood(Play([], e) + [DoPush(ReleaseOf(e))], f, limit) + [DoDrain(limit)], rules, limit);
      && Quiet(w, RulesOf(rules, id)) && Held(DeviceIn(w, id), e.midi.note) == 1 && !GoesDark(w, rules, limit, id)
  {
    var own := RulesOf(rules, id);
    var w := Run(Fresh(), Flood(Play([], e) + [DoPush(ReleaseOf(e))], f, limit) + [DoDrain(limit)], rules, limit);
    FloodRun(rules, k, limit, id, e, f);
    Pressed(rules, k, limit, id, e);
    hide Run, Flood, Play, Disjoint, NoteOnRules, RulesOf;
    forall note ensures Sounding(own, note, w.pushed) == 0 { BesideIsSilent(own, note, [e] + [ReleaseOf(e)], f, limit); }
    StrandedStaysLit(w, e.midi.note, rules, limit, id);
  }
}
