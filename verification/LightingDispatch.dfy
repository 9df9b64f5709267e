/**
 The bounded event queue between the MIDI path and the lights. Events are pushed
 in O(1), drained later within a time budget; on overflow the oldest event that
 is no release goes first. Blackout and all-off throw away what is queued.
 */
module LightingDispatch {
  import opened LightingRules
  import opened Wrappers

  datatype Stats = Stats(queued: nat, processed: nat, dropped: nat, droppedReleases: nat, discarded: nat)

  /** What the queue means: the pending events, whether a drain is scheduled, and the devices. */
  datatype Core = Core(pending: seq<Entry>, armed: bool, stats: Stats, devices: map<string, Device>)

  function DeviceOf(devices: map<string, Device>, id: string): Device {
    if id in devices then devices[id] else DARK
  }

  // ---- rules and devices ----

  function ApplyEvent(rules: seq<Rule>, devices: map<string, Device>, e: Entry): map<string, Device> {
    if rules == [] then devices else
      var before, rule := ApplyEvent(rules[..|rules| - 1], devices, e), rules[|rules| - 1];
      before[rule.device := React(rule, DeviceOf(before, rule.device), e)]
  }

  function ApplyAll(rules: seq<Rule>, devices: map<string, Device>, s: seq<Entry>): map<string, Device> {
    if s == [] then devices else ApplyEvent(rules, ApplyAll(rules, devices, s[..|s| - 1]), s[|s| - 1])
  }

  lemma {:induction false} ApplyAllSnoc(rules: seq<Rule>, devices: map<string, Device>, s: seq<Entry>, k: nat)
    requires k < |s|
    ensures ApplyAll(rules, devices, s[..k + 1]) == ApplyEvent(rules, ApplyAll(rules, devices, s[..k]), s[k])
  {
    assert s[..k + 1][..k] == s[..k];
  }

  /** The rules of one device, in their order. */
  function RulesOf(rules: seq<Rule>, id: string): seq<Rule> {
    if rules == [] then [] else
      var before, rule := RulesOf(rules[..|rules| - 1], id), rules[|rules| - 1];
      if rule.device == id then before + [rule] else before
  }

  /** A device sees its own rules only, in their order. */
  lemma {:induction false} ApplyEventPerDevice(rules: seq<Rule>, devices: map<string, Device>, e: Entry, id: string)
    ensures DeviceOf(ApplyEvent(rules, devices, e), id) == ReactAll(RulesOf(rules, id), DeviceOf(devices, id), e)
  {
    if rules != [] {
      ApplyEventPerDevice(rules[..|rules| - 1], devices, e, id);
      var before, rule := RulesOf(rules[..|rules| - 1], id), rules[|rules| - 1];
      assert (before + [rule])[..|before|] == before;
    }
  }

  // ---- the queue on values ----

  /** The event to drop on overflow: the oldest that is no release, the oldest of all when there is none. */
  function Victim(pending: seq<Entry>): (i: nat)
    requires pending != []
    ensures i < |pending|
    ensures forall j :: 0 <= j < i ==> IsRelease(pending[j].midi)
    ensures IsRelease(pending[i].midi) ==> i == 0 && forall j :: 0 <= j < |pending| ==> IsRelease(pending[j].midi)
  {
    var n := |pending| - 1;
    if n == 0 then 0
    else
      var i := Victim(pending[..n]);
      if !IsRelease(pending[i].midi) then i else if IsRelease(pending[n].midi) then 0 else n
  }

  function Drop(c: Core): Core
    requires c.pending != []
  {
    var i := Victim(c.pending);
    c.(pending := c.pending[..i] + c.pending[i + 1..],
       stats := c.stats.(dropped := c.stats.dropped + 1,
                         droppedReleases := c.stats.droppedReleases + if IsRelease(c.pending[i].midi) then 1 else 0))
  }

  function Push(c: Core, e: Entry, limit: nat): Core
    requires limit > 0
  {
    var room := if |c.pending| >= limit then Drop(c) else c;
    room.(pending := room.pending + [e], armed := true, stats := room.stats.(queued := room.stats.queued + 1))
  }

  /** How many events a drain processes when the clock allows `budget`: at least one, if there is one. */
  function DrainCount(pending: seq<Entry>, budget: nat): (n: nat)
    ensures n <= |pending| && (pending != [] ==> n > 0)
  {
    if |pending| <= budget then |pending| else if budget == 0 then 1 else budget
  }

  function Drain(c: Core, rules: seq<Rule>, budget: nat): Core {
    var n := DrainCount(c.pending, budget);
    Core(c.pending[n..], n < |c.pending|, c.stats.(processed := c.stats.processed + n),
         ApplyAll(rules, c.devices, c.pending[..n]))
  }

  function Discard(c: Core): Core {
    c.(pending := [], armed := false, stats := c.stats.(discarded := c.stats.discarded + |c.pending|))
  }

  /** Blackout darkens every device but keeps the held-note counters; all-off clears those too. */
  function Blackout(c: Core): Core {
    var d := Discard(c);
    d.(devices := map id | id in d.devices :: d.devices[id].(lit := {}))
  }

  function AllOff(c: Core): Core {
    Discard(c).(devices := map id | id in c.devices :: DARK)
  }

  // ---- the manager ----

  /** A backing array with a read cursor: consumed slots are null, pending ones are not. */
  class LightingManager {
    const rules: seq<Rule>
    const queueLimit: nat
    var queue: seq<Option<Entry>>
    var queueHead: nat
    var drainArmed: bool
    var stats: Stats
    var devices: map<string, Device>
    ghost var pending: seq<Entry>

    ghost predicate Valid()
      reads this
    {
      && queueLimit > 0 && queueHead + |pending| == |queue|
      && forall i :: queueHead <= i < |queue| ==> queue[i] == Some(pending[i - queueHead])
    }

    ghost function Now(): Core
      reads this
    {
      Core(pending, drainArmed, stats, devices)
    }

    /** Depth within the limit, and the array shorter than twice the limit. */
    ghost predicate Bounded()
      reads this
    {
      queueHead < queueLimit && |pending| <= queueLimit && |queue| < 2 * queueLimit
    }

    constructor (rules: seq<Rule>, limit: nat)
      requires limit > 0
      ensures Valid() && Bounded()
      ensures Now() == Core([], false, Stats(0, 0, 0, 0, 0), map[]) && this.rules == rules && queueLimit == limit
    {
      this.rules, queueLimit := rules, limit;
      queue, queueHead, drainArmed, stats, devices := [], 0, false, Stats(0, 0, 0, 0, 0), map[];
      pending := [];
    }

    method CompactQueue()
      requires Valid()
      modifies this`queue, this`queueHead
      ensures Valid() && queueHead < queueLimit
    {
      if queueHead >= |queue| {
        queue, queueHead := [], 0;
      } else if queueHead >= queueLimit {
        queue := queue[queueHead..];
        queueHead := 0;
      }
    }

    /** The scan for the oldest pending event that is no release; the cursor itself when there is none. */
    method FindVictim() returns (i: nat)
      requires Valid() && pending != []
      ensures queueHead <= i < |queue| && i - queueHead == Victim(pending)
    {
      i := queueHead;
      while i < |queue|
        invariant queueHead <= i <= |queue|
        invariant forall j :: 0 <= j < i - queueHead ==> IsRelease(pending[j].midi)
      {
        if !IsRelease(queue[i].value.midi) { return; }
        i := i + 1;
      }
      i := queueHead;
    }

    method RemoveAt(i: nat)
      requires Valid() && queueHead <= i < |queue|
      modifies this`queue, this`queueHead, this`pending
      ensures Valid() && pending == old(pending[..i - queueHead] + pending[i - queueHead + 1..])
    {
      pending := pending[..i - queueHead] + pending[i - queueHead + 1..];
      if i == queueHead {
        queue := queue[queueHead := None];
        queueHead := queueHead + 1;
      } else {
        queue := queue[..i] + queue[i + 1..];
      }
    }

    method DropOldestEvent()
      requires Valid() && pending != []
      modifies this`queue, this`queueHead, this`stats, this`pending
      ensures Valid() && Now() == Drop(old(Now())) && queueHead < queueLimit
    {
      hide IsRelease, Victim;
      var i := FindVictim();
      ghost var was, k := Now(), i - queueHead;
      assert queue[i].value == was.pending[k];
      var release := IsRelease(queue[i].value.midi);
      RemoveAt(i);
      stats := stats.(dropped := stats.dropped + 1);
      if release { stats := stats.(droppedReleases := stats.droppedReleases + 1); }
      CompactQueue();
    }

    method PushLightingEvent(e: Entry)
      requires Valid() && Bounded()
      modifies this`queue, this`queueHead, this`stats, this`drainArmed, this`pending
      ensures Valid() && Bounded() && Now() == Push(old(Now()), e, queueLimit)
    {
      if |queue| - queueHead >= queueLimit { DropOldestEvent(); }
      queue := queue + [Some(e)];
      pending := pending + [e];
      stats := stats.(queued := stats.queued + 1);
      drainArmed := true;
    }

    method ApplyRoutedEvent(e: Entry)
      modifies this`devices
      ensures devices == ApplyEvent(rules, old(devices), e)
    {
      for i := 0 to |rules|
        invariant devices == ApplyEvent(rules[..i], old(devices), e)
      {
        assert rules[..i + 1][..i] == rules[..i];
        var rule := rules[i];
        devices := devices[rule.device := React(rule, DeviceOf(devices, rule.device), e)];
      }
      assert rules[..|rules|] == rules;
    }

    /** Takes the first pending event and runs it. */
    method RunNext()
      requires Valid() && pending != []
      modifies this`queue, this`queueHead, this`stats, this`devices, this`pending
      ensures Valid() && |queue| == old(|queue|) && pending == old(pending)[1..]
      ensures devices == ApplyEvent(rules, old(devices), old(pending)[0])
      ensures stats == old(stats).(processed := old(stats).processed + 1)
    {
      var entry := queue[queueHead].value;
      queue := queue[queueHead := None];
      queueHead := queueHead + 1;
      pending := pending[1..];
      ApplyRoutedEvent(entry);
      stats := stats.(processed := stats.processed + 1);
    }

    /** Runs pending events until the clock runs out, after `budget` of them; the clock is read after each. */
    method RunWithinBudget(budget: nat)
      requires Valid()
      modifies this`queue, this`queueHead, this`stats, this`devices, this`pending
      ensures Valid() && |queue| == old(|queue|)
      ensures var n := DrainCount(old(pending), budget);
        && pending == old(pending)[n..]
        && devices == ApplyAll(rules, old(devices), old(pending)[..n])
        && stats == old(stats).(processed := old(stats).processed + n)
    {
      ghost var start := pending;
      var k := 0;
      assert ApplyAll(rules, devices, start[..0]) == devices;
      hide ApplyAll, ApplyEvent;
      while queueHead < |queue|
        invariant Valid() && k <= |start| && pending == start[k..] && |queue| == old(|queue|)
        invariant k > 0 ==> k < budget
        invariant devices == ApplyAll(rules, old(devices), start[..k])
        invariant stats == old(stats).(processed := old(stats).processed + k)
        decreases |start| - k
      {
        ApplyAllSnoc(rules, old(devices), start, k);
        RunNext();
        k := k + 1;
        if k >= budget { break; }
      }
    }

    /** One drain: what does not fit the budget waits for the next one. */
    method DrainQueue(budget: nat)
      requires Valid() && Bounded()
      modifies this
      ensures Valid() && Bounded() && Now() == Drain(old(Now()), rules, budget)
    {
      hide ApplyAll, ApplyEvent;
      drainArmed := false;
      RunWithinBudget(budget);
      CompactQueue();
      if queueHead < |queue| { drainArmed := true; }
    }

    method DiscardPendingEvents() returns (discarded: nat)
      requires Valid() && Bounded()
      modifies this`queue, this`queueHead, this`stats, this`drainArmed, this`pending
      ensures Valid() && Bounded() && Now() == Discard(old(Now())) && discarded == |old(pending)|
    {
      discarded := |queue| - queueHead;
      queue, queueHead, drainArmed, pending := [], 0, false, [];
      if discarded > 0 { stats := stats.(discarded := stats.discarded + discarded); }
    }

    method BlackoutAll()
      requires Valid() && Bounded()
      modifies this
      ensures Valid() && Bounded() && Now() == Blackout(old(Now()))
    {
      var _ := DiscardPendingEvents();
      devices := map id | id in devices :: devices[id].(lit := {});
    }

    method AllLightsOff()
      requires Valid() && Bounded()
      modifies this
      ensures Valid() && Bounded() && Now() == AllOff(old(Now()))
    {
      var _ := DiscardPendingEvents();
      devices := map id | id in devices :: DARK;
    }
  }
}
