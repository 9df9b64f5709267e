/**
 No light stays on. A world is safe for a device when its counters, once the
 pending events have run, stay at or below what sounds. Every step either keeps
 that or loses a release that is still owed, and which of the two can be told
 before the step. Only the rules of the device itself matter.
 */
module LightingSafety {
  import opened LightingRules
  import opened LightingDispatch
  import opened LightingRuns
  import opened Wrappers

  function DeviceIn(w: World, id: string): Device { DeviceOf(w.core.devices, id) }

  /** `own` are the rules of device `id`. */
  ghost predicate Safe(w: World, own: seq<Rule>, id: string) {
    Orderly(w, id) && forall note :: SafeFor(w, own, id, note)
  }

  ghost predicate SafeFor(w: World, own: seq<Rule>, id: string, note: Option<int>) {
    SoundingFrom(own, note, Held(DeviceIn(w, id), note), w.core.pending) <= Sounding(own, note, w.pushed)
  }

  ghost predicate Orderly(w: World, id: string) { CountersOk(DeviceIn(w, id)) && AllWellFormed(w.core.pending) }

  // ---- devices in order, in every run ----

  /** Running the events `s` keeps a device in order and its counters below what sounds. */
  lemma {:induction false} DrainKeepsDevice(rules: seq<Rule>, devices: map<string, Device>, s: seq<Entry>, id: string, note: Option<int>)
    requires NoteOnRules(RulesOf(rules, id)) && AllWellFormed(s) && CountersOk(DeviceOf(devices, id))
    ensures var after := DeviceOf(ApplyAll(rules, devices, s), id);
      CountersOk(after) && Held(after, note) <= SoundingFrom(RulesOf(rules, id), note, Held(DeviceOf(devices, id), note), s)
  {
    if s != [] {
      var init, last := s[..|s| - 1], s[|s| - 1];
      DrainKeepsDevice(rules, devices, init, id, note);
      var mid := ApplyAll(rules, devices, init);
      ApplyEventPerDevice(rules, mid, last, id);
      ReactAllKeepsDevice(RulesOf(rules, id), DeviceOf(mid, id), last, note);
      var own := RulesOf(rules, id);
      SoundingMonotone(own, note, Held(DeviceOf(mid, id), note), SoundingFrom(own, note, Held(DeviceOf(devices, id), note), init), [last]);
      assert forall c: nat :: SoundingFrom(own, note, c, [last]) == SoundStep(own, note, c, last) by { assert [last][..0] == []; }
    }
  }

  lemma {:induction false} StepKeepsOrderly(w: World, op: Op, rules: seq<Rule>, limit: nat, id: string)
    requires limit > 0 && NoteOnRules(RulesOf(rules, id)) && Orderly(w, id) && (op.DoPush? ==> WellFormed(op.e.midi))
    ensures Orderly(Step(w, op, rules, limit), id)
  {
    if op.DoDrain? {
      DrainKeepsDevice(rules, w.core.devices, w.core.pending[..DrainCount(w.core.pending, op.budget)], id, None);
    }
  }

  /** The range that all rules of a device share, if they do. */
  function LedsOf(own: seq<Rule>): set<int> { if own == [] then {} else own[0].leds }

  lemma {:induction false} DrainKeepsLit(rules: seq<Rule>, devices: map<string, Device>, s: seq<Entry>, id: string)
    requires NoteOnRules(RulesOf(rules, id)) && OneRange(RulesOf(rules, id)) && AllWellFormed(s)
    requires CountersOk(DeviceOf(devices, id)) && LitOk(DeviceOf(devices, id), LedsOf(RulesOf(rules, id)))
    ensures LitOk(DeviceOf(ApplyAll(rules, devices, s), id), LedsOf(RulesOf(rules, id)))
  {
    if s != [] {
      var init, last := s[..|s| - 1], s[|s| - 1];
      DrainKeepsLit(rules, devices, init, id);
      DrainKeepsDevice(rules, devices, init, id, None);
      var mid := ApplyAll(rules, devices, init);
      ApplyEventPerDevice(rules, mid, last, id);
      ReactAllKeepsLit(RulesOf(rules, id), DeviceOf(mid, id), last, LedsOf(RulesOf(rules, id)));
    }
  }

  ghost predicate WellFormedPushes(ops: seq<Op>) { forall k :: 0 <= k < |ops| && ops[k].DoPush? ==> WellFormed(ops[k].e.midi) }

  lemma {:induction false} RunKeepsOrderly(w: World, ops: seq<Op>, rules: seq<Rule>, limit: nat, id: string)
    requires limit > 0 && NoteOnRules(RulesOf(rules, id)) && Orderly(w, id) && WellFormedPushes(ops)
    ensures Orderly(Run(w, ops, rules, limit), id)
  {
    if ops != [] {
      RunKeepsOrderly(w, ops[..|ops| - 1], rules, limit, id);
      StepKeepsOrderly(Run(w, ops[..|ops| - 1], rules, limit), ops[|ops| - 1], rules, limit, id);
    }
  }

  lemma {:induction false} RunKeepsLit(w: World, ops: seq<Op>, rules: seq<Rule>, limit: nat, id: string)
    requires limit > 0 && NoteOnRules(RulesOf(rules, id)) && OneRange(RulesOf(rules, id)) && WellFormedPushes(ops)
    requires Orderly(w, id) && LitOk(DeviceIn(w, id), LedsOf(RulesOf(rules, id)))
    ensures LitOk(DeviceIn(Run(w, ops, rules, limit), id), LedsOf(RulesOf(rules, id)))
  {
    if ops != [] {
      var init, op := ops[..|ops| - 1], ops[|ops| - 1];
      RunKeepsLit(w, init, rules, limit, id);
      RunKeepsOrderly(w, init, rules, limit, id);
      if op.DoDrain? {
        var c := Run(w, init, rules, limit).core;
        DrainKeepsLit(rules, c.devices, c.pending[..DrainCount(c.pending, op.budget)], id);
      }
    }
  }

  /** In every run, whatever it drops or blacks out: a lit device holds a note. */
  lemma {:induction false} LitMeansHeld(ops: seq<Op>, rules: seq<Rule>, limit: nat, id: string) returns (note: Option<int>)
    requires limit > 0 && NoteOnRules(RulesOf(rules, id)) && OneRange(RulesOf(rules, id)) && WellFormedPushes(ops)
    requires DeviceIn(Run(Fresh(), ops, rules, limit), id).lit != {}
    ensures note.Some? && Held(DeviceIn(Run(Fresh(), ops, rules, limit), id), note) > 0
  {
    RunKeepsOrderly(Fresh(), ops, rules, limit, id);
    RunKeepsLit(Fresh(), ops, rules, limit, id);
    note := LitImpliesHeld(DeviceIn(Run(Fresh(), ops, rules, limit), id), LedsOf(RulesOf(rules, id)));
  }

  // ---- which steps keep a device safe ----

  /** How many holds of `note` the event releases. */
  function Frees(own: seq<Rule>, note: Option<int>, e: Entry): nat {
    if e.midi.note == note && IsRelease(e.midi) then Weight(own, e) else 0
  }

  function Releases(own: seq<Rule>, note: Option<int>, s: seq<Entry>): nat {
    if s == [] then 0 else Releases(own, note, s[..|s| - 1]) + Frees(own, note, s[|s| - 1])
  }

  lemma {:induction false} OnlyReleases(own: seq<Rule>, note: Option<int>, c: nat, s: seq<Entry>)
    requires forall i :: 0 <= i < |s| ==> IsRelease(s[i].midi)
    ensures SoundingFrom(own, note, c, s) == if c <= Releases(own, note, s) then 0 else c - Releases(own, note, s)
  {
    if s != [] { OnlyReleases(own, note, c, s[..|s| - 1]); }
  }

  /** Does pushing overflow a queue of releases only, so that one is dropped? */
  predicate DropsRelease(c: Core, limit: nat)
    requires limit > 0
  {
    |c.pending| >= limit && IsRelease(c.pending[Victim(c.pending)].midi)
  }

  /** How many holds of `note` may be left when `e` is pushed: what sounds, or what `e` releases itself. */
  function Allowance(own: seq<Rule>, note: Option<int>, pushed: seq<Entry>, e: Entry): nat {
    if Sounding(own, note, pushed) < Frees(own, note, e) then Frees(own, note, e) else Sounding(own, note, pushed)
  }

  /**
   What can be told before a step. Pushing onto a queue of releases drops the first:
   the others, and what sounds, must cover the counters. A blackout drops all that
   is pending: what sounds must cover the counters.
   */
  ghost predicate Harmless(w: World, op: Op, own: seq<Rule>, limit: nat, id: string)
    requires limit > 0
  {
    match op
    case DoPush(e) => WellFormed(e.midi) && (DropsRelease(w.core, limit) ==> OthersSuffice(w, e, own, id))
    case DoBlackout => Covered(w, own, id)
    case _ => true
  }

  ghost predicate OthersSuffice(w: World, e: Entry, own: seq<Rule>, id: string)
    requires w.core.pending != []
  {
    forall note :: SufficeFor(w, e, own, id, note)
  }

  ghost predicate SufficeFor(w: World, e: Entry, own: seq<Rule>, id: string, note: Option<int>)
    requires w.core.pending != []
  {
    Held(DeviceIn(w, id), note) <= Releases(own, note, w.core.pending[1..]) + Allowance(own, note, w.pushed, e)
  }

  /** What sounds covers the counters. */
  ghost predicate Covered(w: World, own: seq<Rule>, id: string) {
    forall note :: Held(DeviceIn(w, id), note) <= Sounding(own, note, w.pushed)
  }

  lemma {:induction false} SoundingSnoc(own: seq<Rule>, note: Option<int>, c: nat, s: seq<Entry>, e: Entry)
    ensures SoundingFrom(own, note, c, s + [e]) == SoundStep(own, note, SoundingFrom(own, note, c, s), e)
  {
    assert (s + [e])[..|s|] == s;
  }

  /** One event more on both sides: the order of two counts is kept, up to releases that find too little. */
  lemma {:induction false} SteppedNote(own: seq<Rule>, note: Option<int>, a: nat, b: nat, e: Entry)
    ensures SoundStep(own, note, a, e) <= SoundStep(own, note, b, e)
       <==> a <= if b < Frees(own, note, e) then Frees(own, note, e) else b
  {
  }

  lemma {:induction false} PushNote(own: seq<Rule>, note: Option<int>, h: nat, p: seq<Entry>, e: Entry, pushed: seq<Entry>)
    requires SoundingFrom(own, note, h, p) <= Sounding(own, note, pushed)
    ensures SoundingFrom(own, note, h, p + [e]) <= Sounding(own, note, pushed + [e])
  {
    SoundingSnoc(own, note, h, p, e);
    SoundingSnoc(own, note, 0, pushed, e);
    SteppedNote(own, note, SoundingFrom(own, note, h, p), Sounding(own, note, pushed), e);
  }

  /** What is pending when a push has made its room. */
  function Room(c: Core, limit: nat): seq<Entry>
    requires limit > 0
  {
    if |c.pending| >= limit then Drop(c).pending else c.pending
  }

  /** A push with room, or one that gives up an attack. */
  lemma {:induction false} PushKeepsSafe(w: World, e: Entry, rules: seq<Rule>, limit: nat, own: seq<Rule>, id: string)
    requires limit > 0 && Safe(w, own, id) && WellFormed(e.midi) && !DropsRelease(w.core, limit)
    ensures Safe(Step(w, DoPush(e), rules, limit), own, id)
  {
    var p, d, room, w' := w.core.pending, DeviceIn(w, id), Room(w.core, limit), Step(w, DoPush(e), rules, limit);
    forall note ensures SafeFor(w', own, id, note) {
      assert SafeFor(w, own, id, note);
      if |p| >= limit { ForgettingAttack(own, note, Held(d, note), p, Victim(p)); }
      PushNote(own, note, Held(d, note), room, e, w.pushed);
    }
    hide SafeFor, CountersOk, WellFormed;
    assert forall j :: 0 <= j < |room| ==> room[j] in p;
  }

  lemma {:induction false} OverflowNote(own: seq<Rule>, note: Option<int>, h: nat, pushed: seq<Entry>, q: seq<Entry>, e: Entry)
    requires forall j :: 0 <= j < |q| ==> IsRelease(q[j].midi)
    ensures SoundingFrom(own, note, h, q + [e]) <= Sounding(own, note, pushed + [e])
      <==> h <= Releases(own, note, q) + Allowance(own, note, pushed, e)
  {
    SoundingSnoc(own, note, h, q, e);
    SoundingSnoc(own, note, 0, pushed, e);
    OnlyReleases(own, note, h, q);
    hide SoundingFrom, Releases, Frees, SoundStep;
    SteppedNote(own, note, SoundingFrom(own, note, h, q), Sounding(own, note, pushed), e);
  }

  /** The world after a push that drops a release. */
  lemma {:induction false} Overflowed(w: World, e: Entry, rules: seq<Rule>, limit: nat)
    requires limit > 0 && DropsRelease(w.core, limit)
    ensures forall j :: 0 <= j < |w.core.pending| ==> IsRelease(w.core.pending[j].midi)
    ensures var w' := Step(w, DoPush(e), rules, limit);
      w'.core.pending == w.core.pending[1..] + [e] && w'.core.devices == w.core.devices && w'.pushed == w.pushed + [e]
  {
    var p := w.core.pending;
    assert Victim(p) == 0;
    assert p[..0] + p[1..] == p[1..];
  }

  /** An overflow that drops a release keeps a device safe if and only if the others, and what sounds, cover its counters. */
  lemma {:induction false} OverflowExactly(w: World, e: Entry, rules: seq<Rule>, limit: nat, own: seq<Rule>, id: string)
    requires limit > 0 && Safe(w, own, id) && WellFormed(e.midi) && DropsRelease(w.core, limit)
    ensures Safe(Step(w, DoPush(e), rules, limit), own, id) <==> OthersSuffice(w, e, own, id)
  {
    var q, w' := w.core.pending[1..], Step(w, DoPush(e), rules, limit);
    Overflowed(w, e, rules, limit);
    assert Orderly(w', id);
    forall note ensures SafeFor(w', own, id, note) <==> SufficeFor(w, e, own, id, note) {
      hide Step, Sounding, SoundingFrom, Held, Allowance, Releases, DropsRelease, IsRelease;
      OverflowNote(own, note, Held(DeviceIn(w, id), note), w.pushed, q, e);
    }
    hide SafeFor, SufficeFor, Step, Orderly, DropsRelease;
  }

  lemma {:induction false} DrainKeepsSafe(w: World, budget: nat, rules: seq<Rule>, limit: nat, id: string)
    requires limit > 0 && NoteOnRules(RulesOf(rules, id)) && Safe(w, RulesOf(rules, id), id)
    ensures Safe(Step(w, DoDrain(budget), rules, limit), RulesOf(rules, id), id)
  {
    var own, p, n := RulesOf(rules, id), w.core.pending, DrainCount(w.core.pending, budget);
    var d := DeviceIn(w, id);
    var d' := DeviceOf(ApplyAll(rules, w.core.devices, p[..n]), id);
    DrainKeepsDevice(rules, w.core.devices, p[..n], id, None);
    hide *;
    forall note ensures SafeFor(Step(w, DoDrain(budget), rules, limit), own, id, note) {
      assert SafeFor(w, own, id, note);
      DrainKeepsDevice(rules, w.core.devices, p[..n], id, note);
      assert p == p[..n] + p[n..];
      SoundingConcat(own, note, Held(d, note), p[..n], p[n..]);
      SoundingMonotone(own, note, Held(d', note), SoundingFrom(own, note, Held(d, note), p[..n]), p[n..]);
    }
  }

  lemma {:induction false} Drained(own: seq<Rule>, note: Option<int>, c: nat)
    ensures SoundingFrom(own, note, c, []) == c
  {
  }

  /** A blackout keeps a device safe if and only if what sounds covers its counters. */
  lemma {:induction false} BlackoutExactly(w: World, rules: seq<Rule>, limit: nat, own: seq<Rule>, id: string)
    requires limit > 0 && CountersOk(DeviceIn(w, id))
    ensures Safe(Step(w, DoBlackout, rules, limit), own, id) <==> Covered(w, own, id)
  {
    var w' := Step(w, DoBlackout, rules, limit);
    forall note ensures SafeFor(w', own, id, note) <==> Held(DeviceIn(w, id), note) <= Sounding(own, note, w.pushed) {
      Drained(own, note, Held(DeviceIn(w, id), note));
    }
  }

  /** A step from a safe world leads to a safe one if and only if it is harmless. */
  lemma {:induction false} StepSafeExactly(w: World, op: Op, rules: seq<Rule>, limit: nat, id: string)
    requires limit > 0 && NoteOnRules(RulesOf(rules, id)) && Safe(w, RulesOf(rules, id), id)
    ensures Safe(Step(w, op, rules, limit), RulesOf(rules, id), id) <==> Harmless(w, op, RulesOf(rules, id), limit, id)
  {
    var own := RulesOf(rules, id);
    match op
    case DoPush(e) =>
      if !WellFormed(e.midi) {
        var after := Step(w, op, rules, limit).core.pending;
        assert after[|after| - 1] == e;
      } else if DropsRelease(w.core, limit) {
        OverflowExactly(w, e, rules, limit, own, id);
      } else {
        PushKeepsSafe(w, e, rules, limit, own, id);
      }
    case DoDrain(budget) => DrainKeepsSafe(w, budget, rules, limit, id);
    case DoBlackout => BlackoutExactly(w, rules, limit, own, id);
    case DoAllOff =>
      forall note ensures SoundingFrom(own, note, 0, []) == 0 { Drained(own, note, 0); }
  }

  // ---- whole runs ----

  ghost predicate RunHarmless(w: World, ops: seq<Op>, rules: seq<Rule>, limit: nat, id: string)
    requires limit > 0
  {
    ops == [] ||
    var init := ops[..|ops| - 1];
    RunHarmless(w, init, rules, limit, id) && Harmless(Run(w, init, rules, limit), ops[|ops| - 1], RulesOf(rules, id), limit, id)
  }

  ghost predicate SafeThroughout(w: World, ops: seq<Op>, rules: seq<Rule>, limit: nat, id: string)
    requires limit > 0
  {
    && Safe(Run(w, ops, rules, limit), RulesOf(rules, id), id)
    && (ops == [] || SafeThroughout(w, ops[..|ops| - 1], rules, limit, id))
  }

  /** A run from a safe world stays safe all along if and only if every one of its steps is harmless. */
  lemma {:induction false} RunSafeExactly(w: World, ops: seq<Op>, rules: seq<Rule>, limit: nat, id: string)
    requires limit > 0 && NoteOnRules(RulesOf(rules, id)) && Safe(w, RulesOf(rules, id), id)
    ensures SafeThroughout(w, ops, rules, limit, id) <==> RunHarmless(w, ops, rules, limit, id)
  {
    hide Safe, Harmless, Step;
    if ops != [] {
      var init := ops[..|ops| - 1];
      RunSafeExactly(w, init, rules, limit, id);
      if SafeThroughout(w, init, rules, limit, id) {
        StepSafeExactly(Run(w, init, rules, limit), ops[|ops| - 1], rules, limit, id);
      }
    }
  }

  lemma {:induction false} HarmlessIsWellFormed(w: World, ops: seq<Op>, rules: seq<Rule>, limit: nat, id: string)
    requires limit > 0 && RunHarmless(w, ops, rules, limit, id)
    ensures WellFormedPushes(ops)
  {
    if ops != [] {
      HarmlessIsWellFormed(w, ops[..|ops| - 1], rules, limit, id);
    }
  }

  /** The manager is safe, and dark, at the start. */
  lemma {:induction false} FreshIsSafe(own: seq<Rule>, id: string)
    ensures Safe(Fresh(), own, id) && LitOk(DeviceIn(Fresh(), id), LedsOf(own))
  {
  }

  /** Drained, and every note the device's rules watch is released. */
  ghost predicate Quiet(w: World, own: seq<Rule>) {
    w.core.pending == [] && forall note :: Sounding(own, note, w.pushed) == 0
  }

  ghost predicate HoldsNothing(d: Device) { forall note :: Held(d, note) == 0 }

  /**
   No light stays on. After a harmless run from a safe world, with the queue
   drained: a device counts at most the notes that sound; when all notes its rules
   watch are released it holds none, and if its rules share a range it is dark.
   */
  lemma {:induction false} NoLightStaysOn(w: World, ops: seq<Op>, rules: seq<Rule>, limit: nat, id: string)
    requires limit > 0 && NoteOnRules(RulesOf(rules, id)) && Safe(w, RulesOf(rules, id), id)
    requires RunHarmless(w, ops, rules, limit, id) && Run(w, ops, rules, limit).core.pending == []
    ensures var after, own := Run(w, ops, rules, limit), RulesOf(rules, id);
      && Covered(after, own, id)
      && (Quiet(after, own) ==> HoldsNothing(DeviceIn(after, id)))
      && (Quiet(after, own) && OneRange(own) && LitOk(DeviceIn(w, id), LedsOf(own)) ==> DeviceIn(after, id).lit == {})
  {
    RunSafeExactly(w, ops, rules, limit, id);
    var after, own := Run(w, ops, rules, limit), RulesOf(rules, id);
    var d := DeviceIn(after, id);
    forall note ensures Held(d, note) <= Sounding(own, note, after.pushed) {
      assert SafeFor(after, own, id, note);
      Drained(own, note, Held(d, note));
    }
    if OneRange(own) && LitOk(DeviceIn(w, id), LedsOf(own)) && d.lit != {} {
      HarmlessIsWellFormed(w, ops, rules, limit, id);
      RunKeepsLit(w, ops, rules, limit, id);
      var note := LitImpliesHeld(d, LedsOf(own));
    }
  }
}
