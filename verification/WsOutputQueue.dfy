/**
 The broadcast queue of the WebSocket server: coalescable events keep their
 latest payload only, discrete ones queue up to a depth that shrinks while the
 event loop lags, and one scheduled flush sends everything.
 */
module WsOutputQueue {
  import opened Sequences

  datatype Kind = Kind(name: string)

  /** What an event carries; the queue never looks into it. */
  datatype Payload = Payload(json: string)

  datatype Severity = Informational | Critical
  datatype Event = Event(kind: Kind, payload: Payload, severity: Severity)
  datatype Message = Message(kind: Kind, payload: Payload)

  /** A broadcast, and how far the event loop lags when it arrives. */
  datatype Arrival = Arrival(kind: Kind, payload: Payload, lag: real)

  const MIN_QUEUE_DEPTH_UNDER_LAG := 50
  const INFORMATIONAL_EVENTS := {Kind("file_upload_progress"), Kind("lighting_led_state"), Kind("lighting_effect_change")}

  function SeverityOf(kind: Kind): Severity { if kind in INFORMATIONAL_EVENTS then Informational else Critical }

  function Max(a: nat, b: nat): nat { if a < b then b else a }

  function EffectiveDepth(maxDepth: nat, lag: real): (d: nat)
    ensures maxDepth > 0 ==> d > 0
  {
    if lag > 10.0 then Max(MIN_QUEUE_DEPTH_UNDER_LAG, maxDepth / 2) else maxDepth
  }

  // ---- the queue on values ----

  /** What the queue means; `latest` is in the order the kinds first arrived in. */
  datatype State = State(queue: seq<Event>, latest: seq<Message>, armed: bool, closed: bool)

  /** The oldest informational event, or the length when there is none. */
  function FirstInformational(q: seq<Event>): (i: nat)
    ensures i <= |q| && (i < |q| ==> q[i].severity == Informational)
    ensures forall j :: 0 <= j < i ==> q[j].severity != Informational
  {
    if q == [] then 0 else
      var i := FirstInformational(q[..|q| - 1]);
      if i < |q| - 1 || q[i].severity == Informational then i else |q|
  }

  /** Gives up the oldest informational event, the oldest event when there is none. */
  function DropOne(q: seq<Event>): (r: seq<Event>)
    requires q != []
    ensures |r| == |q| - 1
  {
    RemoveAt(q, if FirstInformational(q) < |q| then FirstInformational(q) else 0)
  }

  function MakeRoom(q: seq<Event>, depth: nat): seq<Event>
    requires depth > 0
    decreases |q|
  {
    if |q| < depth then q else MakeRoom(DropOne(q), depth)
  }

  function Enqueue(s: State, e: Event, depth: nat): State
    requires depth > 0
  {
    if s.closed then s else s.(queue := MakeRoom(s.queue, depth) + [e], armed := true)
  }

  function KindOf(m: Message): Kind { m.kind }

  /** Where `kind` has its slot, or the length when it has none. */
  function SlotOf(latest: seq<Message>, kind: Kind): nat { IndexBy(latest, KindOf, kind) }

  /** Setting a map entry: in its old place when the kind has one, else at the end. */
  function SetLatest(latest: seq<Message>, m: Message): seq<Message> {
    var i := SlotOf(latest, m.kind);
    if i < |latest| then latest[i := m] else latest + [m]
  }

  function EnqueueLatest(s: State, m: Message): State {
    if s.closed then s else s.(latest := SetLatest(s.latest, m), armed := true)
  }

  function Broadcast(s: State, a: Arrival, coalescable: set<Kind>, maxDepth: nat): State
    requires maxDepth > 0
  {
    if a.kind in coalescable then EnqueueLatest(s, Message(a.kind, a.payload))
    else Enqueue(s, Event(a.kind, a.payload, SeverityOf(a.kind)), EffectiveDepth(maxDepth, a.lag))
  }

  function Payloads(q: seq<Event>): (m: seq<Message>)
    ensures |m| == |q|
  {
    seq(|q|, i requires 0 <= i < |q| => Message(q[i].kind, q[i].payload))
  }

  /** What one flush sends: the latest slots, then the queue. */
  function Sends(s: State): seq<Message> { if s.closed then [] else s.latest + Payloads(s.queue) }

  function Flush(s: State): State {
    if s.closed then s.(armed := false) else State([], [], false, false)
  }

  function Close(s: State): State { State([], [], s.armed, true) }

  // ---- the queue itself ----

  class Queue {
    const maxDepth: nat
    const coalescable: set<Kind>
    var queue: seq<Event>
    var latest: seq<Message>
    var flushScheduled: bool
    var closed: bool

    ghost function Now(): State
      reads this
    {
      State(queue, latest, flushScheduled, closed)
    }

    constructor (maxDepth: nat, coalescable: set<Kind>)
      ensures Now() == State([], [], false, false)
      ensures this.maxDepth == maxDepth && this.coalescable == coalescable
    {
      this.maxDepth, this.coalescable := maxDepth, coalescable;
      queue, latest, flushScheduled, closed := [], [], false, false;
    }

    method DropOneUnderPressure()
      requires queue != []
      modifies this`queue
      ensures queue == DropOne(old(queue))
    {
      for i := 0 to |queue|
        invariant queue == old(queue)
        invariant forall j :: 0 <= j < i ==> queue[j].severity != Informational
      {
        if queue[i].severity == Informational {
          queue := queue[..i] + queue[i + 1..];
          return;
        }
      }
      queue := queue[1..];
      assert old(queue)[..0] + queue == queue;
    }

    /** With a depth of 0 the program's loop never ends: it drops from an empty queue for ever. */
    method EnqueueEvent(e: Event, lag: real)
      requires EffectiveDepth(maxDepth, lag) > 0
      modifies this
      ensures Now() == Enqueue(old(Now()), e, EffectiveDepth(maxDepth, lag))
    {
      if closed { return; }
      var effectiveDepth := EffectiveDepth(maxDepth, lag);
      while |queue| >= effectiveDepth
        invariant latest == old(latest) && flushScheduled == old(flushScheduled) && !closed
        invariant MakeRoom(queue, effectiveDepth) == MakeRoom(old(queue), effectiveDepth)
        decreases |queue|
      {
        DropOneUnderPressure();
      }
      queue := queue + [e];
      MaybeScheduleFlush();
    }

    method EnqueueLatestEvent(m: Message)
      modifies this
      ensures Now() == EnqueueLatest(old(Now()), m)
    {
      if closed { return; }
      var i := SlotOf(latest, m.kind);
      if i < |latest| { latest := latest[i := m]; } else { latest := latest + [m]; }
      MaybeScheduleFlush();
    }

    method BroadcastEvent(a: Arrival)
      requires maxDepth > 0
      modifies this
      ensures Now() == Broadcast(old(Now()), a, coalescable, maxDepth)
    {
      if a.kind in coalescable {
        EnqueueLatestEvent(Message(a.kind, a.payload));
      } else {
        EnqueueEvent(Event(a.kind, a.payload, SeverityOf(a.kind)), a.lag);
      }
    }

    method MaybeScheduleFlush()
      modifies this`flushScheduled
      ensures flushScheduled
    {
      if flushScheduled { return; }
      flushScheduled := true;
    }

    /** The scheduled flush; `sent` is the sequence of sends it makes. */
    method FlushOnce() returns (sent: seq<Message>)
      modifies this
      ensures Now() == Flush(old(Now())) && sent == Sends(old(Now()))
    {
      flushScheduled, sent := false, [];
      if closed { return; }
      var snapshot := latest;
      latest := [];
      for i := 0 to |snapshot|
        invariant sent == snapshot[..i]
      {
        sent := sent + [snapshot[i]];
      }
      var drained := queue;
      queue := [];
      for i := 0 to |drained|
        invariant sent == snapshot + Payloads(drained)[..i]
      {
        sent := sent + [Message(drained[i].kind, drained[i].payload)];
      }
    }

    method CloseQueue()
      modifies this
      ensures Now() == Close(old(Now()))
    {
      closed := true;
      queue, latest := [], [];
    }
  }

  // ---- every run ----

  datatype Op = DoBroadcast(a: Arrival) | DoFlush | DoClose

  function Step(s: State, op: Op, coalescable: set<Kind>, maxDepth: nat): State
    requires maxDepth > 0
  {
    match op
    case DoBroadcast(a) => Broadcast(s, a, coalescable, maxDepth)
    case DoFlush => Flush(s)
    case DoClose => Close(s)
  }

  function Run(ops: seq<Op>, coalescable: set<Kind>, maxDepth: nat): State
    requires maxDepth > 0
  {
    if ops == [] then State([], [], false, false)
    else Step(Run(ops[..|ops| - 1], coalescable, maxDepth), ops[|ops| - 1], coalescable, maxDepth)
  }

  /** Bounded depth, one slot a kind, a flush armed whenever something waits, nothing kept once closed. */
  ghost predicate Inv(s: State, maxDepth: nat) {
    && |s.queue| <= Max(maxDepth, MIN_QUEUE_DEPTH_UNDER_LAG)
    && DistinctKinds(s.latest)
    && (s.queue != [] || s.latest != [] ==> s.armed && !s.closed)
  }

  ghost predicate DistinctKinds(latest: seq<Message>) {
    forall i, j :: 0 <= i < j < |latest| ==> latest[i].kind != latest[j].kind
  }

  lemma {:induction false} RoomIsMade(q: seq<Event>, depth: nat)
    requires depth > 0
    ensures |MakeRoom(q, depth)| == if |q| < depth then |q| else depth - 1
    decreases |q|
  {
    if |q| >= depth { RoomIsMade(DropOne(q), depth); }
  }

  lemma {:induction false} StepKeepsInv(s: State, op: Op, coalescable: set<Kind>, maxDepth: nat)
    requires maxDepth > 0 && Inv(s, maxDepth)
    ensures Inv(Step(s, op, coalescable, maxDepth), maxDepth)
  {
    if op.DoBroadcast? && op.a.kind !in coalescable {
      RoomIsMade(s.queue, EffectiveDepth(maxDepth, op.a.lag));
    }
  }

  lemma {:induction false} RunKeepsInv(ops: seq<Op>, coalescable: set<Kind>, maxDepth: nat)
    requires maxDepth > 0
    ensures Inv(Run(ops, coalescable, maxDepth), maxDepth)
  {
    if ops != [] {
      RunKeepsInv(ops[..|ops| - 1], coalescable, maxDepth);
      StepKeepsInv(Run(ops[..|ops| - 1], coalescable, maxDepth), ops[|ops| - 1], coalescable, maxDepth);
    }
  }

  /** Closing is final: whatever is broadcast or flushed afterwards, nothing is kept and nothing is sent. */
  lemma {:induction false} CloseIsFinal(before: seq<Op>, later: seq<Op>, coalescable: set<Kind>, maxDepth: nat)
    requires maxDepth > 0
    ensures var s := Run(before + [DoClose] + later, coalescable, maxDepth);
      s.closed && s.queue == [] && s.latest == [] && Sends(s) == []
  {
    var ops := before + [DoClose] + later;
    if later == [] {
      assert ops[..|ops| - 1] == before && ops[|ops| - 1] == DoClose;
    } else {
      assert ops[..|ops| - 1] == before + [DoClose] + later[..|later| - 1];
      CloseIsFinal(before, later[..|later| - 1], coalescable, maxDepth);
    }
  }

  // ---- what survives an overflow ----

  function Only(sev: Severity, q: seq<Event>): (r: seq<Event>)
    ensures |r| <= |q|
  {
    if q == [] then [] else
      Only(sev, q[..|q| - 1]) + if q[|q| - 1].severity == sev then [q[|q| - 1]] else []
  }

  function Newest(n: nat, q: seq<Event>): seq<Event> { if n < |q| then q[|q| - n..] else q }

  lemma {:induction false} OnlySnoc(sev: Severity, q: seq<Event>, e: Event)
    ensures Only(sev, q + [e]) == Only(sev, q) + if e.severity == sev then [e] else []
  {
    assert (q + [e])[..|q|] == q;
  }

  lemma {:induction false} OnlyNone(q: seq<Event>)
    requires forall i :: 0 <= i < |q| ==> q[i].severity != Informational
    ensures Only(Informational, q) == [] && Only(Critical, q) == q
  {
    if q != [] {
      var init, last := q[..|q| - 1], q[|q| - 1];
      OnlyNone(init);
      assert q == init + [last];
      assert Only(Critical, q) == Only(Critical, init) + [last];
      assert Only(Informational, q) == Only(Informational, init) + [];
    }
  }

  lemma {:induction false} TwoSeverities(q: seq<Event>)
    ensures |Only(Critical, q)| + |Only(Informational, q)| == |q|
  {
    if q != [] { TwoSeverities(q[..|q| - 1]); }
  }

  lemma {:induction false} DropInformational(q: seq<Event>)
    requires FirstInformational(q) < |q|
    ensures Only(Informational, q) != [] && Only(Informational, RemoveAt(q, FirstInformational(q))) == Only(Informational, q)[1..]
    ensures Only(Critical, RemoveAt(q, FirstInformational(q))) == Only(Critical, q)
  {
    var init, last, k := q[..|q| - 1], q[|q| - 1], FirstInformational(q);
    if k < |init| {
      DropInformational(init);
      assert RemoveAt(q, k) == RemoveAt(init, k) + [last];
      OnlySnoc(Informational, RemoveAt(init, k), last);
      OnlySnoc(Critical, RemoveAt(init, k), last);
    } else {
      assert RemoveAt(q, k) == init;
      OnlyNone(init);
      assert Only(Informational, q) == [] + [last];
    }
  }

  lemma {:induction false} DropCritical(q: seq<Event>)
    requires q != [] && FirstInformational(q) == |q|
    ensures Only(Informational, q) == Only(Informational, DropOne(q)) == []
    ensures Only(Critical, q) != [] && Only(Critical, DropOne(q)) == Only(Critical, q)[1..]
  {
    var k: nat := 0;
    assert q[..k] == [] && [] + q[1..] == q[1..];
    assert DropOne(q) == q[1..];
    OnlyNone(q);
    OnlyNone(q[1..]);
  }

  /** One drop: the oldest informational event, or the oldest critical one when no informational one is queued. */
  lemma {:induction false} DropOnePolicy(q: seq<Event>)
    requires q != []
    ensures var i, c := Only(Informational, q), Only(Critical, q);
      if i != [] then Only(Informational, DropOne(q)) == i[1..] && Only(Critical, DropOne(q)) == c
      else Only(Informational, DropOne(q)) == [] && c != [] && Only(Critical, DropOne(q)) == c[1..]
  {
    hide Only, FirstInformational;
    if FirstInformational(q) < |q| { DropInformational(q); } else { DropCritical(q); }
  }

  lemma {:induction false} RoomIsSubsequence(q: seq<Event>, depth: nat, all: seq<Event>)
    requires depth > 0 && Subseq(q, all)
    ensures Subseq(MakeRoom(q, depth), all)
    decreases |q|
  {
    if |q| >= depth {
      SubseqRemove(q, all, if FirstInformational(q) < |q| then FirstInformational(q) else 0);
      RoomIsSubsequence(DropOne(q), depth, all);
    }
  }

  /**
   Making room keeps the newest events of each severity: as many critical ones as
   fit, and of the others what fits beside all the critical ones.
   */
  lemma {:induction false} RoomKeepsNewest(q: seq<Event>, depth: nat)
    requires depth > 0
    ensures var r, c, i := MakeRoom(q, depth), Only(Critical, q), Only(Informational, q);
      && Only(Critical, r) == Newest(depth - 1, c)
      && Only(Informational, r) == Newest(if |c| < depth - 1 then depth - 1 - |c| else 0, i)
    decreases |q|
  {
    TwoSeverities(q);
    hide Only;
    if |q| >= depth {
      DropOnePolicy(q);
      RoomKeepsNewest(DropOne(q), depth);
      var c, i := Only(Critical, q), Only(Informational, q);
      if i == [] {
        NewestOfRest(depth - 1, c);
      } else {
        NewestOfRest(if |c| < depth - 1 then depth - 1 - |c| else 0, i);
      }
    }
  }

  lemma {:induction false} NewestOfRest(n: nat, q: seq<Event>)
    requires n < |q|
    ensures Newest(n, q[1..]) == Newest(n, q)
  {
  }

  // ---- what a flush sends after any broadcasts ----

  /** The state after the broadcasts `b`, from just after a flush. */
  function After(b: seq<Arrival>, coalescable: set<Kind>, maxDepth: nat): State
    requires maxDepth > 0
  {
    if b == [] then State([], [], false, false)
    else Broadcast(After(b[..|b| - 1], coalescable, maxDepth), b[|b| - 1], coalescable, maxDepth)
  }

  /** The coalescable kinds, in the order of their first broadcast. */
  function FirstKinds(b: seq<Arrival>, coalescable: set<Kind>): seq<Kind> {
    if b == [] then [] else
      var init, kind := FirstKinds(b[..|b| - 1], coalescable), b[|b| - 1].kind;
      if kind in coalescable && kind !in init then init + [kind] else init
  }

  /** The last broadcast of `kind`. */
  function LastOf(b: seq<Arrival>, kind: Kind): (a: Arrival)
    requires exists i :: 0 <= i < |b| && b[i].kind == kind
    ensures a.kind == kind && a in b
    ensures exists i :: 0 <= i < |b| && b[i] == a && forall j :: i < j < |b| ==> b[j].kind != kind
  {
    if b[|b| - 1].kind == kind then b[|b| - 1] else LastOf(b[..|b| - 1], kind)
  }

  /** The discrete broadcasts, as queue entries. */
  function Discrete(b: seq<Arrival>, coalescable: set<Kind>): seq<Event> {
    if b == [] then [] else Discrete(b[..|b| - 1], coalescable) + Entry(b[|b| - 1], coalescable)
  }

  /** A broadcast as a queue entry; a coalescable one makes none. */
  function Entry(a: Arrival, coalescable: set<Kind>): seq<Event> {
    if a.kind in coalescable then [] else [Event(a.kind, a.payload, SeverityOf(a.kind))]
  }

  /** One slot per coalescable kind broadcast, in order of first broadcast, holding the last payload. */
  ghost predicate LatestWins(latest: seq<Message>, b: seq<Arrival>, coalescable: set<Kind>) {
    DistinctKinds(latest) && SlotsRight(latest, FirstKinds(b, coalescable), b)
  }

  ghost predicate SlotsRight(latest: seq<Message>, kinds: seq<Kind>, b: seq<Arrival>) {
    |latest| == |kinds| && forall i :: 0 <= i < |latest| ==> IsLastOf(latest[i], b, kinds[i])
  }

  ghost predicate IsLastOf(m: Message, b: seq<Arrival>, kind: Kind) {
    m.kind == kind && Broadcasted(b, kind) && m.payload == LastOf(b, kind).payload
  }

  predicate Broadcasted(b: seq<Arrival>, kind: Kind) { exists i :: 0 <= i < |b| && b[i].kind == kind }

  lemma {:induction false} KindsAreComplete(b: seq<Arrival>, coalescable: set<Kind>, kind: Kind)
    ensures kind in FirstKinds(b, coalescable) <==> kind in coalescable && Broadcasted(b, kind)
  {
    if b != [] {
      var init := b[..|b| - 1];
      KindsAreComplete(init, coalescable, kind);
      assert Broadcasted(b, kind) <==> Broadcasted(init, kind) || b[|b| - 1].kind == kind by {
        if Broadcasted(init, kind) {
          var i :| 0 <= i < |init| && init[i].kind == kind;
          assert b[i].kind == kind;
        }
      }
    }
  }

  lemma {:induction false} LastOfSnoc(b: seq<Arrival>, a: Arrival, kind: Kind)
    requires Broadcasted(b, kind) || a.kind == kind
    ensures Broadcasted(b + [a], kind)
    ensures LastOf(b + [a], kind) == if a.kind == kind then a else LastOf(b, kind)
  {
    assert (b + [a])[..|b|] == b;
    if a.kind != kind {
      var i :| 0 <= i < |b| && b[i].kind == kind;
      assert (b + [a])[i].kind == kind;
    } else {
      assert (b + [a])[|b|].kind == kind;
    }
  }

  lemma {:induction false} FirstKindsSnoc(b: seq<Arrival>, a: Arrival, coalescable: set<Kind>)
    ensures var kinds := FirstKinds(b, coalescable);
      FirstKinds(b + [a], coalescable) == if a.kind in coalescable && a.kind !in kinds then kinds + [a.kind] else kinds
  {
    assert (b + [a])[..|b|] == b;
  }

  lemma {:induction false} SlotStays(m: Message, b: seq<Arrival>, kind: Kind, a: Arrival)
    requires IsLastOf(m, b, kind) && kind != a.kind
    ensures IsLastOf(m, b + [a], kind)
  {
    LastOfSnoc(b, a, kind);
  }

  lemma {:induction false} SlotReplaced(latest: seq<Message>, kinds: seq<Kind>, b: seq<Arrival>, a: Arrival, slot: nat)
    requires SlotsRight(latest, kinds, b) && DistinctKinds(latest) && slot < |latest| && latest[slot].kind == a.kind
    ensures SlotsRight(latest[slot := Message(a.kind, a.payload)], kinds, b + [a])
    ensures DistinctKinds(latest[slot := Message(a.kind, a.payload)])
  {
    LastOfSnoc(b, a, a.kind);
    var after := latest[slot := Message(a.kind, a.payload)];
    forall i | 0 <= i < |latest| ensures IsLastOf(after[i], b + [a], kinds[i]) {
      assert IsLastOf(latest[i], b, kinds[i]);
      if i != slot { SlotStays(latest[i], b, kinds[i], a); }
    }
  }

  /** A broadcast of a kind without a slot leaves the slots right; `tail` is its new slot, if it gets one. */
  lemma {:induction false} SlotAdded(latest: seq<Message>, kinds: seq<Kind>, b: seq<Arrival>, a: Arrival, added: bool)
    requires SlotsRight(latest, kinds, b) && DistinctKinds(latest) && a.kind !in kinds
    ensures var after, kinds' := latest + (if added then [Message(a.kind, a.payload)] else []), kinds + (if added then [a.kind] else []);
      SlotsRight(after, kinds', b + [a]) && DistinctKinds(after)
  {
    LastOfSnoc(b, a, a.kind);
    forall i | 0 <= i < |latest| ensures IsLastOf(latest[i], b + [a], kinds[i]) {
      assert kinds[i] != a.kind;
      SlotStays(latest[i], b, kinds[i], a);
    }
  }

  lemma {:induction false} LatestStep(latest: seq<Message>, b: seq<Arrival>, a: Arrival, coalescable: set<Kind>)
    requires LatestWins(latest, b, coalescable)
    ensures LatestWins(if a.kind in coalescable then SetLatest(latest, Message(a.kind, a.payload)) else latest, b + [a], coalescable)
  {
    var kinds, slot := FirstKinds(b, coalescable), SlotOf(latest, a.kind);
    FirstKindsSnoc(b, a, coalescable);
    KindsAreComplete(b, coalescable, a.kind);
    assert a.kind in kinds ==> a.kind in coalescable && slot < |latest| by {
      if a.kind in kinds { SlotFor(latest, kinds, b, a.kind); }
    }
    if slot < |latest| {
      assert IsLastOf(latest[slot], b, kinds[slot]);
      SlotReplaced(latest, kinds, b, a, slot);
    } else {
      SlotAdded(latest, kinds, b, a, a.kind in coalescable);
      assert kinds + [] == kinds && latest + [] == latest;
    }
  }

  lemma {:induction false} SlotFor(latest: seq<Message>, kinds: seq<Kind>, b: seq<Arrival>, kind: Kind)
    requires SlotsRight(latest, kinds, b) && kind in kinds
    ensures SlotOf(latest, kind) < |latest|
  {
    var i :| 0 <= i < |kinds| && kinds[i] == kind;
    assert IsLastOf(latest[i], b, kinds[i]);
  }

  lemma {:induction false} AfterIsOpen(b: seq<Arrival>, coalescable: set<Kind>, maxDepth: nat)
    requires maxDepth > 0
    ensures !After(b, coalescable, maxDepth).closed && (b != [] ==> After(b, coalescable, maxDepth).armed)
  {
    if b != [] { AfterIsOpen(b[..|b| - 1], coalescable, maxDepth); }
  }

  /** Nothing waits unscheduled; each coalescable kind holds its last payload; discrete events queue in order. */
  lemma {:induction false} AfterBroadcasts(b: seq<Arrival>, coalescable: set<Kind>, maxDepth: nat)
    requires maxDepth > 0
    ensures LatestWins(After(b, coalescable, maxDepth).latest, b, coalescable)
    ensures Subseq(After(b, coalescable, maxDepth).queue, Discrete(b, coalescable))
  {
    hide LatestWins, Subseq, Broadcast, Entry, SetLatest;
    if b == [] {
      NoBroadcasts(coalescable, maxDepth);
    } else {
      var init, a := b[..|b| - 1], b[|b| - 1];
      assert b == init + [a];
      AfterBroadcasts(init, coalescable, maxDepth);
      AfterIsOpen(init, coalescable, maxDepth);
      AfterSnoc(init, a, coalescable, maxDepth);
      LatestStep(After(init, coalescable, maxDepth).latest, init, a, coalescable);
      BroadcastKeepsOrder(After(init, coalescable, maxDepth), Discrete(init, coalescable), a, coalescable, maxDepth);
    }
  }

  lemma {:induction false} NoBroadcasts(coalescable: set<Kind>, maxDepth: nat)
    ensures LatestWins([], [], coalescable) && Subseq<Event>([], [])
    ensures AllKept([], []) && AllKeptOrFewer([], []) && NeverCrowded([], coalescable, maxDepth)
  {
  }

  lemma {:induction false} AfterSnoc(b: seq<Arrival>, a: Arrival, coalescable: set<Kind>, maxDepth: nat)
    requires maxDepth > 0 && !After(b, coalescable, maxDepth).closed
    ensures After(b + [a], coalescable, maxDepth) == Broadcast(After(b, coalescable, maxDepth), a, coalescable, maxDepth)
    ensures Discrete(b + [a], coalescable) == Discrete(b, coalescable) + Entry(a, coalescable)
    ensures var latest := After(b, coalescable, maxDepth).latest;
      After(b + [a], coalescable, maxDepth).latest
      == if a.kind in coalescable then SetLatest(latest, Message(a.kind, a.payload)) else latest
  {
    assert (b + [a])[..|b|] == b;
  }

  lemma {:induction false} BroadcastKeepsOrder(s: State, all: seq<Event>, a: Arrival, coalescable: set<Kind>, maxDepth: nat)
    requires maxDepth > 0 && !s.closed && Subseq(s.queue, all)
    ensures Subseq(Broadcast(s, a, coalescable, maxDepth).queue, all + Entry(a, coalescable))
  {
    hide Subseq;
    if a.kind !in coalescable {
      var depth := EffectiveDepth(maxDepth, a.lag);
      RoomIsSubsequence(s.queue, depth, all);
      SubseqSnoc(MakeRoom(s.queue, depth), all, Entry(a, coalescable)[0]);
    } else {
      assert all + [] == all;
    }
  }

  /** Each discrete event finds fewer critical ones broadcast before it than its depth allows. */
  ghost predicate NeverCrowded(b: seq<Arrival>, coalescable: set<Kind>, maxDepth: nat) {
    forall i :: 0 <= i < |b| && b[i].kind !in coalescable ==>
      |Only(Critical, Discrete(b[..i], coalescable))| < EffectiveDepth(maxDepth, b[i].lag)
  }

  lemma {:induction false} NeverCrowdedSnoc(b: seq<Arrival>, a: Arrival, coalescable: set<Kind>, maxDepth: nat)
    ensures NeverCrowded(b + [a], coalescable, maxDepth) <==>
      (NeverCrowded(b, coalescable, maxDepth)
       && (a.kind !in coalescable ==> |Only(Critical, Discrete(b, coalescable))| < EffectiveDepth(maxDepth, a.lag)))
  {
    var ba := b + [a];
    assert ba[..|b|] == b;
    assert forall i :: 0 <= i < |b| ==> ba[..i] == b[..i] && ba[i] == b[i];
    if NeverCrowded(ba, coalescable, maxDepth) {
      assert ba[|b|] == a;
      forall i | 0 <= i < |b| && b[i].kind !in coalescable
        ensures |Only(Critical, Discrete(b[..i], coalescable))| < EffectiveDepth(maxDepth, b[i].lag)
      {
        assert ba[i].kind !in coalescable;
      }
    }
  }

  lemma {:induction false} NewestLoses(kept: seq<Event>, sent: seq<Event>, n: nat, tail: seq<Event>)
    requires |kept| <= |sent| && (kept == sent <==> |kept| == |sent|)
    ensures var kept', sent' := Newest(n, kept) + tail, sent + tail;
      && |kept'| <= |sent'| && (kept' == sent' <==> |kept'| == |sent'|)
      && (kept' == sent' <==> kept == sent && |sent| <= n)
  {
    if Newest(n, kept) + tail == sent + tail {
      assert |Newest(n, kept)| == |sent|;
    }
  }

  /** `kept` are the critical events of `all` that are still in `q`; so it goes on after one more event. */
  lemma {:induction false} CriticalStep(q: seq<Event>, all: seq<Event>, e: Event, depth: nat)
    requires depth > 0 && AllKeptOrFewer(q, all)
    ensures AllKeptOrFewer(MakeRoom(q, depth) + [e], all + [e])
    ensures AllKept(MakeRoom(q, depth) + [e], all + [e]) <==> AllKept(q, all) && |Only(Critical, all)| < depth
  {
    hide Only;
    RoomKeepsNewest(q, depth);
    OnlySnoc(Critical, MakeRoom(q, depth), e);
    OnlySnoc(Critical, all, e);
    NewestLoses(Only(Critical, q), Only(Critical, all), depth - 1, if e.severity == Critical then [e] else []);
  }

  /** Every critical event of `all` is in `q`. */
  predicate AllKept(q: seq<Event>, all: seq<Event>) { Only(Critical, q) == Only(Critical, all) }

  predicate AllKeptOrFewer(q: seq<Event>, all: seq<Event>) {
    && |Only(Critical, q)| <= |Only(Critical, all)|
    && (AllKept(q, all) <==> |Only(Critical, q)| == |Only(Critical, all)|)
  }

  lemma {:induction false} BroadcastKeepsCriticals(s: State, all: seq<Event>, a: Arrival, coalescable: set<Kind>, maxDepth: nat)
    requires maxDepth > 0 && !s.closed && AllKeptOrFewer(s.queue, all)
    ensures var q, all' := Broadcast(s, a, coalescable, maxDepth).queue, all + Entry(a, coalescable);
      && AllKeptOrFewer(q, all')
      && (AllKept(q, all') <==>
          AllKept(s.queue, all) && (a.kind !in coalescable ==> |Only(Critical, all)| < EffectiveDepth(maxDepth, a.lag)))
  {
    hide AllKept, AllKeptOrFewer, EffectiveDepth, MakeRoom, Only;
    if a.kind !in coalescable {
      CriticalStep(s.queue, all, Entry(a, coalescable)[0], EffectiveDepth(maxDepth, a.lag));
    } else {
      assert all + [] == all;
    }
  }

  /**
   No critical event is lost before the flush, exactly when the queue never gets
   crowded: an informational arrival may push out a critical event, too.
   */
  lemma {:induction false} CriticalsSurvive(b: seq<Arrival>, coalescable: set<Kind>, maxDepth: nat)
    requires maxDepth > 0
    ensures var q, all := After(b, coalescable, maxDepth).queue, Discrete(b, coalescable);
      AllKeptOrFewer(q, all) && (AllKept(q, all) <==> NeverCrowded(b, coalescable, maxDepth))
  {
    hide AllKept, AllKeptOrFewer, NeverCrowded, EffectiveDepth, Broadcast, Entry, Only;
    if b == [] {
      NoBroadcasts(coalescable, maxDepth);
    } else {
      var init, a := b[..|b| - 1], b[|b| - 1];
      assert b == init + [a];
      CriticalsSurvive(init, coalescable, maxDepth);
      AfterIsOpen(init, coalescable, maxDepth);
      AfterSnoc(init, a, coalescable, maxDepth);
      NeverCrowdedSnoc(init, a, coalescable, maxDepth);
      BroadcastKeepsCriticals(After(init, coalescable, maxDepth), Discrete(init, coalescable), a, coalescable, maxDepth);
    }
  }

  function Broadcasts(b: seq<Arrival>): (ops: seq<Op>)
    ensures |ops| == |b|
  {
    seq(|b|, i requires 0 <= i < |b| => DoBroadcast(b[i]))
  }

  lemma {:induction false} RunSnoc(ops: seq<Op>, op: Op, coalescable: set<Kind>, maxDepth: nat)
    requires maxDepth > 0
    ensures Run(ops + [op], coalescable, maxDepth) == Step(Run(ops, coalescable, maxDepth), op, coalescable, maxDepth)
  {
    assert (ops + [op])[..|ops|] == ops;
  }

  lemma {:induction false} RunFromFlush(ops: seq<Op>, b: seq<Arrival>, coalescable: set<Kind>, maxDepth: nat)
    requires maxDepth > 0 && !Run(ops, coalescable, maxDepth).closed
    ensures Run(ops + [DoFlush] + Broadcasts(b), coalescable, maxDepth) == After(b, coalescable, maxDepth)
  {
    var run := ops + [DoFlush] + Broadcasts(b);
    if b == [] {
      RunSnoc(ops, DoFlush, coalescable, maxDepth);
      assert run == ops + [DoFlush];
    } else {
      var init, last := b[..|b| - 1], b[|b| - 1];
      RunFromFlush(ops, init, coalescable, maxDepth);
      AfterIsOpen(init, coalescable, maxDepth);
      BroadcastsSnoc(ops + [DoFlush], b);
      hide Run, After, Broadcast, Broadcasts;
      assert b == init + [last];
      AfterSnoc(init, last, coalescable, maxDepth);
      RunSnoc(ops + [DoFlush] + Broadcasts(init), DoBroadcast(last), coalescable, maxDepth);
    }
  }

  lemma {:induction false} BroadcastsSnoc(ops: seq<Op>, b: seq<Arrival>)
    requires b != []
    ensures ops + Broadcasts(b) == ops + Broadcasts(b[..|b| - 1]) + [DoBroadcast(b[|b| - 1])]
  {
  }

  /**
   In any run, the next flush sends, of what was broadcast since the last one: the
   last payload of each coalescable kind, once, in order of first broadcast; then
   discrete events in order, and all critical ones exactly if it never got crowded.
   */
  lemma {:induction false} FlushSends(ops: seq<Op>, b: seq<Arrival>, coalescable: set<Kind>, maxDepth: nat)
    returns (latest: seq<Message>, queued: seq<Event>)
    requires maxDepth > 0 && !Run(ops, coalescable, maxDepth).closed
    ensures Sends(Run(ops + [DoFlush] + Broadcasts(b), coalescable, maxDepth)) == latest + Payloads(queued)
    ensures |Payloads(queued)| == |queued|
    ensures forall i :: 0 <= i < |queued| ==> Payloads(queued)[i] == Message(queued[i].kind, queued[i].payload)
    ensures LatestWins(latest, b, coalescable)
    ensures Subseq(queued, Discrete(b, coalescable))
    ensures AllKept(queued, Discrete(b, coalescable)) <==> NeverCrowded(b, coalescable, maxDepth)
  {
    RunFromFlush(ops, b, coalescable, maxDepth);
    AfterIsOpen(b, coalescable, maxDepth);
    AfterBroadcasts(b, coalescable, maxDepth);
    CriticalsSurvive(b, coalescable, maxDepth);
    latest, queued := After(b, coalescable, maxDepth).latest, After(b, coalescable, maxDepth).queue;
  }

  /** A critical event and then an informational one, at a depth of 1: the critical one is gone. */
  lemma {:induction false} InformationalEvictsCritical(note: Payload, led: Payload)
    ensures var b := [Arrival(Kind("midi_event"), note, 0.0), Arrival(Kind("lighting_led_state"), led, 0.0)];
      After(b, {}, 1).queue == [Event(Kind("lighting_led_state"), led, Informational)]
  {
    var first, second := Arrival(Kind("midi_event"), note, 0.0), Arrival(Kind("lighting_led_state"), led, 0.0);
    var e := Event(first.kind, note, SeverityOf(first.kind));
    AfterSnoc([], first, {}, 1);
    AfterSnoc([first], second, {}, 1);
    assert [] + [first] == [first] && [first] + [second] == [first, second];
    RoomIsMade([], 1);
    RoomIsMade([e], 1);
    assert After([first], {}, 1).queue == [e];
  }

  /** Discrete events that all arrive at the same depth fill the queue to exactly that depth. */
  lemma {:induction false} FillsToDepth(b: seq<Arrival>, coalescable: set<Kind>, maxDepth: nat, depth: nat)
    requires maxDepth > 0 && depth > 0
    requires forall i :: 0 <= i < |b| ==> b[i].kind !in coalescable && EffectiveDepth(maxDepth, b[i].lag) == depth
    ensures |After(b, coalescable, maxDepth).queue| == (if |b| < depth then |b| else depth) && !After(b, coalescable, maxDepth).closed
  {
    if b != [] {
      var init := b[..|b| - 1];
      FillsToDepth(init, coalescable, maxDepth, depth);
      RoomIsMade(After(init, coalescable, maxDepth).queue, depth);
    }
  }

  /** Under lag a limit below 50 is no limit: fifty discrete events are all kept. */
  lemma {:induction false} LagOutgrowsLimit(b: seq<Arrival>, coalescable: set<Kind>, maxDepth: nat)
    requires maxDepth > 0 && |b| == MIN_QUEUE_DEPTH_UNDER_LAG
    requires forall i :: 0 <= i < |b| ==> b[i].kind !in coalescable && b[i].lag > 10.0
    ensures |After(b, coalescable, maxDepth).queue| == MIN_QUEUE_DEPTH_UNDER_LAG
    ensures |After(b, coalescable, maxDepth).queue| > maxDepth <==> maxDepth < MIN_QUEUE_DEPTH_UNDER_LAG
  {
    FillsToDepth(b, coalescable, maxDepth, EffectiveDepth(maxDepth, b[0].lag));
  }

  /** The last `n` of the arrivals that are not coalescable: what a queue of that depth keeps of events of one severity. */
  ghost predicate KeepsNewest(q: seq<Event>, b: seq<Arrival>, n: nat, sev: Severity) {
    && |q| == (if |b| < n then |b| else n)
    && forall k :: 0 <= k < |q| ==> q[k] == Event(b[|b| - |q| + k].kind, b[|b| - |q| + k].payload, sev)
  }

  lemma {:induction false} OneSeverityDrops(q: seq<Event>, depth: nat, sev: Severity)
    requires depth > 0 && |q| <= depth && forall k :: 0 <= k < |q| ==> q[k].severity == sev
    ensures MakeRoom(q, depth) == if |q| < depth then q else q[1..]
  {
    if |q| == depth {
      assert q[0].severity == sev && (FirstInformational(q) == 0 || FirstInformational(q) == |q|);
      assert q[..0] + q[1..] == q[1..];
      assert DropOne(q) == q[1..];
      assert MakeRoom(q[1..], depth) == q[1..];
    }
  }

  lemma {:induction false} NewestAtDepth(b: seq<Arrival>, coalescable: set<Kind>, maxDepth: nat, depth: nat, sev: Severity)
    requires maxDepth > 0 && depth > 0
    requires forall i :: 0 <= i < |b| ==>
      b[i].kind !in coalescable && SeverityOf(b[i].kind) == sev && EffectiveDepth(maxDepth, b[i].lag) == depth
    ensures KeepsNewest(After(b, coalescable, maxDepth).queue, b, depth, sev)
  {
    if b != [] {
      var init, a := b[..|b| - 1], b[|b| - 1];
      NewestAtDepth(init, coalescable, maxDepth, depth, sev);
      FillsToDepth(init, coalescable, maxDepth, depth);
      var q := After(init, coalescable, maxDepth).queue;
      assert After(b, coalescable, maxDepth).queue == MakeRoom(q, depth) + [Event(a.kind, a.payload, sev)];
      hide After, MakeRoom, SeverityOf, EffectiveDepth;
      OneSeverityDrops(q, depth, sev);
      NewestSnoc(q, b, depth, sev);
    }
  }

  lemma {:induction false} NewestSnoc(q: seq<Event>, b: seq<Arrival>, depth: nat, sev: Severity)
    requires b != [] && depth > 0 && KeepsNewest(q, b[..|b| - 1], depth, sev)
    ensures KeepsNewest((if |q| < depth then q else q[1..]) + [Event(b[|b| - 1].kind, b[|b| - 1].payload, sev)], b, depth, sev)
  {
  }

  /**
   How many events of one severity wait: the newest up to the limit; while the loop
   lags by more than 10 ms the newest 50, or half the limit when that is more.
   */
  lemma {:induction false} NewestByLag(b: seq<Arrival>, coalescable: set<Kind>, maxDepth: nat, sev: Severity, lagging: bool)
    requires maxDepth > 0
    requires forall i :: 0 <= i < |b| ==>
      b[i].kind !in coalescable && SeverityOf(b[i].kind) == sev && (lagging <==> b[i].lag > 10.0)
    ensures KeepsNewest(After(b, coalescable, maxDepth).queue, b,
                        if !lagging then maxDepth else if maxDepth <= 100 then 50 else maxDepth / 2, sev)
  {
    var depth := if !lagging then maxDepth else if maxDepth <= 100 then 50 else maxDepth / 2;
    NewestAtDepth(b, coalescable, maxDepth, depth, sev);
  }

  /** The three kinds that give way: with room for two, one of them goes before an older event of any other kind. */
  lemma {:induction false} InformationalGivesWay(first: Arrival, second: Arrival, third: Arrival)
    requires first.lag <= 10.0 && second.lag <= 10.0 && third.lag <= 10.0
    requires first.kind.name !in ["file_upload_progress", "lighting_led_state", "lighting_effect_change"]
    requires second.kind.name in ["file_upload_progress", "lighting_led_state", "lighting_effect_change"]
    ensures var queue := After([first] + [second] + [third], {}, 2).queue;
      && |queue| == 2 && queue[0].kind == first.kind && queue[0].payload == first.payload
      && queue[1].kind == third.kind && queue[1].payload == third.payload
  {
    var c, i := Event(first.kind, first.payload, Critical), Event(second.kind, second.payload, Informational);
    assert SeverityOf(first.kind) == Critical && SeverityOf(second.kind) == Informational;
    hide After, MakeRoom, SeverityOf;
    Arrives([], first, 2);
    Arrives([first], second, 2);
    Arrives([first] + [second], third, 2);
    assert [] + [first] == [first] && [] + [c] == [c];
    RoomForTwo(c);
    InformationalIsDropped(c, i);
  }

  lemma {:induction false} Arrives(b: seq<Arrival>, a: Arrival, maxDepth: nat)
    requires maxDepth > 0 && a.lag <= 10.0
    ensures After([], {}, maxDepth).queue == []
    ensures After(b + [a], {}, maxDepth).queue
         == MakeRoom(After(b, {}, maxDepth).queue, maxDepth) + [Event(a.kind, a.payload, SeverityOf(a.kind))]
  {
    AfterIsOpen(b, {}, maxDepth);
    AfterSnoc(b, a, {}, maxDepth);
  }

  lemma {:induction false} RoomForTwo(c: Event)
    ensures MakeRoom([], 2) == [] && MakeRoom([c], 2) == [c]
  {
  }

  lemma {:induction false} InformationalIsDropped(c: Event, i: Event)
    requires c.severity == Critical && i.severity == Informational
    ensures MakeRoom([c] + [i], 2) == [c]
  {
    assert FirstInformational([c] + [i]) == 1;
    assert DropOne([c] + [i]) == [c];
  }

  /** A run starts with an open, empty queue: broadcasts alone leave what they leave after a flush. */
  lemma {:induction false} RunOfBroadcasts(b: seq<Arrival>, coalescable: set<Kind>, maxDepth: nat)
    requires maxDepth > 0
    ensures Run(Broadcasts(b), coalescable, maxDepth) == After(b, coalescable, maxDepth)
  {
    if b != [] {
      var init, last := b[..|b| - 1], b[|b| - 1];
      RunOfBroadcasts(init, coalescable, maxDepth);
      assert Broadcasts(b)[..|b| - 1] == Broadcasts(init);
    }
  }

  /** It is closed if and only if the run closes it. */
  lemma {:induction false} ClosedByCloseOnly(ops: seq<Op>, coalescable: set<Kind>, maxDepth: nat)
    requires maxDepth > 0
    ensures Run(ops, coalescable, maxDepth).closed <==> DoClose in ops
  {
    if ops != [] {
      ClosedByCloseOnly(ops[..|ops| - 1], coalescable, maxDepth);
      assert ops == ops[..|ops| - 1] + [ops[|ops| - 1]];
    }
  }
}
