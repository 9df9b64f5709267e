/**
 What holds over whole runs of the lighting manager: nothing is lost unaccounted,
 events run in order, and a blackout is final for what was queued before it.
 */
module LightingRuns {
  import opened LightingRules
  import opened LightingDispatch
  import opened Sequences

  datatype Op = DoPush(e: Entry) | DoDrain(budget: nat) | DoAllOff | DoBlackout

  /** A core with the history of the run: everything pushed and everything processed so far. */
  datatype World = World(core: Core, pushed: seq<Entry>, ran: seq<Entry>)

  function Step(w: World, op: Op, rules: seq<Rule>, limit: nat): World
    requires limit > 0
  {
    match op
    case DoPush(e) => w.(core := Push(w.core, e, limit), pushed := w.pushed + [e])
    case DoDrain(budget) =>
      w.(core := Drain(w.core, rules, budget), ran := w.ran + w.core.pending[..DrainCount(w.core.pending, budget)])
    case DoAllOff => w.(core := AllOff(w.core))
    case DoBlackout => w.(core := Blackout(w.core))
  }

  function Run(w: World, ops: seq<Op>, rules: seq<Rule>, limit: nat): World
    requires limit > 0
  {
    if ops == [] then w else Step(Run(w, ops[..|ops| - 1], rules, limit), ops[|ops| - 1], rules, limit)
  }

  const NO_STATS := Stats(0, 0, 0, 0, 0)

  function Fresh(): World { World(Core([], false, NO_STATS, map[]), [], []) }

  // ---- conservation and order ----

  /** Every pushed event is processed, dropped, discarded or still pending, and the counters say so. */
  ghost predicate Accounted(w: World, limit: nat) {
    && w.core.stats.queued == |w.pushed| && w.core.stats.processed == |w.ran|
    && w.core.stats.queued == w.core.stats.processed + w.core.stats.dropped + w.core.stats.discarded + |w.core.pending|
    && w.core.stats.droppedReleases <= w.core.stats.dropped
    && |w.core.pending| <= limit
    && (w.core.armed <==> w.core.pending != [])
  }

  lemma {:induction false} StepKeepsAccounts(w: World, op: Op, rules: seq<Rule>, limit: nat)
    requires limit > 0 && Accounted(w, limit)
    ensures Accounted(Step(w, op, rules, limit), limit)
  {
  }

  /** Conservation over every run, with the depth bound and the promise that pending work has a drain scheduled. */
  lemma {:induction false} RunIsAccounted(ops: seq<Op>, rules: seq<Rule>, limit: nat)
    requires limit > 0
    ensures Accounted(Run(Fresh(), ops, rules, limit), limit)
  {
    if ops != [] {
      RunIsAccounted(ops[..|ops| - 1], rules, limit);
      StepKeepsAccounts(Run(Fresh(), ops[..|ops| - 1], rules, limit), ops[|ops| - 1], rules, limit);
    }
  }

  /** A drain with work to do does some. */
  lemma {:induction false} DrainMakesProgress(c: Core, rules: seq<Rule>, budget: nat)
    requires c.pending != []
    ensures |Drain(c, rules, budget).pending| < |c.pending|
    ensures Drain(c, rules, budget).stats.processed > c.stats.processed
  {
  }

  lemma {:induction false} PushKeepsOrder(w: World, e: Entry, limit: nat, all: seq<Entry>)
    requires limit > 0 && Subseq(w.ran + w.core.pending, all)
    ensures Subseq(w.ran + Push(w.core, e, limit).pending, all + [e])
  {
    hide Subseq;
    var p := w.core.pending;
    var room := p;
    if |p| >= limit {
      var i := Victim(p);
      room := p[..i] + p[i + 1..];
      var line := w.ran + p;
      SubseqRemove(line, all, |w.ran| + i);
      assert line[..|w.ran| + i] + line[|w.ran| + i + 1..] == w.ran + room;
    }
    SubseqSnoc(w.ran + room, all, e);
    assert (w.ran + room) + [e] == w.ran + (room + [e]);
  }

  lemma {:induction false} StepKeepsOrder(w: World, op: Op, rules: seq<Rule>, limit: nat, before: seq<Entry>)
    requires limit > 0 && Subseq(w.ran + w.core.pending, before + w.pushed)
    ensures var w' := Step(w, op, rules, limit); Subseq(w'.ran + w'.core.pending, before + w'.pushed)
  {
    hide Subseq, Push;
    var all, p := w.ran + w.core.pending, w.core.pending;
    match op
    case DoPush(e) =>
      PushKeepsOrder(w, e, limit, before + w.pushed);
      assert (before + w.pushed) + [e] == before + (w.pushed + [e]);
    case DoDrain(budget) =>
      var n := DrainCount(p, budget);
      assert (w.ran + p[..n]) + p[n..] == all;
    case _ =>
      SubseqPrefix(all, before + w.pushed, |w.ran|);
      assert all[..|w.ran|] == w.ran + [];
  }

  /**
   Events run in order: whatever a run processes, and then what it leaves pending,
   is a subsequence of what was pending at the start followed by what was pushed.
   */
  lemma {:induction false} RunsInOrder(c: Core, ops: seq<Op>, rules: seq<Rule>, limit: nat)
    requires limit > 0
    ensures var w := Run(World(c, [], []), ops, rules, limit); Subseq(w.ran + w.core.pending, c.pending + w.pushed)
  {
    if ops == [] {
      SubseqSelf(c.pending);
      assert [] + c.pending == c.pending && c.pending + [] == c.pending;
    } else {
      RunsInOrder(c, ops[..|ops| - 1], rules, limit);
      StepKeepsOrder(Run(World(c, [], []), ops[..|ops| - 1], rules, limit), ops[|ops| - 1], rules, limit, c.pending);
    }
  }

  /** Nothing queued before a blackout or all-off runs after it. */
  lemma {:induction false} NothingSurvivesBlackout(c: Core, ops: seq<Op>, rules: seq<Rule>, limit: nat, off: Op)
    requires limit > 0 && (off.DoAllOff? || off.DoBlackout?)
    ensures var start := Step(World(c, [], []), off, rules, limit);
      var w := Run(World(start.core, [], []), ops, rules, limit);
      Subseq(w.ran, w.pushed)
  {
    var start := Step(World(c, [], []), off, rules, limit).core;
    var w := Run(World(start, [], []), ops, rules, limit);
    RunsInOrder(start, ops, rules, limit);
    assert [] + w.pushed == w.pushed;
    SubseqPrefix(w.ran + w.core.pending, w.pushed, |w.ran|);
    assert (w.ran + w.core.pending)[..|w.ran|] == w.ran;
  }

  /** After a blackout or all-off every device is dark, and stays so until something new is pushed. */
  lemma {:induction false} DarkUntilPushed(c: Core, ops: seq<Op>, rules: seq<Rule>, limit: nat, off: Op, id: string)
    requires limit > 0 && (off.DoAllOff? || off.DoBlackout?)
    requires forall i :: 0 <= i < |ops| ==> !ops[i].DoPush?
    ensures var start := Step(World(c, [], []), off, rules, limit);
      var w := Run(start, ops, rules, limit);
      w.core.pending == [] && DeviceOf(w.core.devices, id).lit == {}
  {
    if ops != [] {
      DarkUntilPushed(c, ops[..|ops| - 1], rules, limit, off, id);
    }
  }
}
