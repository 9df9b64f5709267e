/**
 The per-file async mutex. Each call of acquire becomes a ticket; its chain
 promise settles once the ticket before it has settled and it has itself been
 released. Promise callbacks, microtasks and timers are steps of their own, so a
 run is any interleaving of them.
 */
module FileWriteLock {
  import opened Wrappers

  datatype Phase = Waiting | Holding | Released

  /** `previous` is the ticket whose promise was the tail of the key's chain at acquire time. */
  datatype Ticket = Ticket(key: string, previous: Option<nat>, phase: Phase, timedOut: bool)

  /**
   `chains` maps a key to the ticket whose promise is the tail; `cleanups` are
   the queued cleanup microtasks, `watched` the tails a cleanup callback waits on.
   */
  datatype State = State(tickets: seq<Ticket>, chains: map<string, nat>, settled: set<nat>,
                         cleanups: set<nat>, watched: set<nat>)

  datatype Step =
    | Acquire(key: string)   // the synchronous part of acquire()
    | Enter(i: nat)          // the awaited promise has settled
    | TimeOut(i: nat)        // the timer fires first: proceed without the lock
    | Release(i: nat)        // the release closure is called
    | Settle(i: nat)         // the chain promise of a ticket settles
    | Cleanup(i: nat)        // the microtask queued by a release
    | Fire(tail: nat)        // the callback a cleanup attached to a tail

  const INITIAL := State([], map[], {}, {}, {})

  predicate PreviousSettled(s: State, i: nat)
    requires i < |s.tickets|
  {
    s.tickets[i].previous.None? || s.tickets[i].previous.value in s.settled
  }

  predicate Enabled(s: State, step: Step) {
    match step
    case Acquire(_) => true
    case Enter(i) => i < |s.tickets| && s.tickets[i].phase.Waiting? && PreviousSettled(s, i)
    case TimeOut(i) => i < |s.tickets| && s.tickets[i].phase.Waiting?
    case Release(i) => i < |s.tickets| && !s.tickets[i].phase.Waiting?
    case Settle(i) => i < |s.tickets| && s.tickets[i].phase.Released? && i !in s.settled && PreviousSettled(s, i)
    case Cleanup(i) => i < |s.tickets| && i in s.cleanups
    case Fire(t) => t < |s.tickets| && t in s.watched && t in s.settled
  }

  function Apply(s: State, step: Step): State
    requires Enabled(s, step)
  {
    match step
    case Acquire(k) =>
      var previous := if k in s.chains then Some(s.chains[k]) else None;
      s.(tickets := s.tickets + [Ticket(k, previous, Waiting, false)], chains := s.chains[k := |s.tickets|])
    case Enter(i) => s.(tickets := s.tickets[i := s.tickets[i].(phase := Holding)])
    case TimeOut(i) => s.(tickets := s.tickets[i := s.tickets[i].(phase := Holding, timedOut := true)])
    case Release(i) =>
      if s.tickets[i].phase.Released? then s
      else s.(tickets := s.tickets[i := s.tickets[i].(phase := Released)], cleanups := s.cleanups + {i})
    case Settle(i) => s.(settled := s.settled + {i})
    case Cleanup(i) =>
      var k := s.tickets[i].key;
      s.(cleanups := s.cleanups - {i}, watched := if k in s.chains then s.watched + {s.chains[k]} else s.watched)
    case Fire(t) =>
      var k := s.tickets[t].key;
      s.(watched := s.watched - {t},
         chains := if k in s.chains && s.chains[k] == t then s.chains - {k} else s.chains)
  }

  /** The lock object: the same steps as updates of its fields. */
  class Lock {
    var tickets: seq<Ticket>
    var chains: map<string, nat>
    var settled: set<nat>
    var cleanups: set<nat>
    var watched: set<nat>

    function Now(): State
      reads this
    {
      State(tickets, chains, settled, cleanups, watched)
    }

    constructor ()
      ensures Now() == INITIAL
    {
      tickets, chains, settled, cleanups, watched := [], map[], {}, {}, {};
    }

    method AcquireKey(k: string) returns (ticket: nat)
      modifies this
      ensures ticket == |old(tickets)| && Now() == Apply(old(Now()), Acquire(k))
    {
      var previous := None;
      if k in chains { previous := Some(chains[k]); }
      ticket := |tickets|;
      tickets := tickets + [Ticket(k, previous, Waiting, false)];
      chains := chains[k := ticket];
    }

    /** The end of the wait, by the promise or by the timer. */
    method Resume(i: nat, expired: bool)
      requires Enabled(Now(), if expired then TimeOut(i) else Enter(i))
      modifies this
      ensures Now() == Apply(old(Now()), if expired then TimeOut(i) else Enter(i))
    {
      tickets := tickets[i := tickets[i].(phase := Holding, timedOut := expired || tickets[i].timedOut)];
    }

    method ReleaseTicket(i: nat)
      requires Enabled(Now(), Release(i))
      modifies this
      ensures Now() == Apply(old(Now()), Release(i))
    {
      if tickets[i].phase == Released { return; }
      tickets := tickets[i := tickets[i].(phase := Released)];
      cleanups := cleanups + {i};
    }

    method SettleTicket(i: nat)
      requires Enabled(Now(), Settle(i))
      modifies this
      ensures Now() == Apply(old(Now()), Settle(i))
    {
      settled := settled + {i};
    }

    method RunCleanup(i: nat)
      requires Enabled(Now(), Cleanup(i))
      modifies this
      ensures Now() == Apply(old(Now()), Cleanup(i))
    {
      cleanups := cleanups - {i};
      var k := tickets[i].key;
      if k !in chains { return; }
      watched := watched + {chains[k]};
    }

    method FireCallback(tail: nat)
      requires Enabled(Now(), Fire(tail))
      modifies this
      ensures Now() == Apply(old(Now()), Fire(tail))
    {
      watched := watched - {tail};
      var k := tickets[tail].key;
      if k in chains && chains[k] == tail { chains := chains - {k}; }
    }
  }

  // ---- runs ----

  ghost predicate Runnable(s: State, steps: seq<Step>)
    decreases |steps|
  {
    steps == [] || (Enabled(s, steps[0]) && Runnable(Apply(s, steps[0]), steps[1..]))
  }

  ghost function Exec(s: State, steps: seq<Step>): State
    requires Runnable(s, steps)
    decreases |steps|
  {
    if steps == [] then s else Exec(Apply(s, steps[0]), steps[1..])
  }

  ghost predicate ReleasedBefore(s: State, k: string, n: nat) {
    forall j :: 0 <= j < n && j < |s.tickets| && s.tickets[j].key == k ==> s.tickets[j].phase.Released?
  }

  /** No ticket of key `k` strictly between `a` and `b`. */
  ghost predicate NoneBetween(s: State, k: string, a: int, b: int) {
    forall j :: a < j < b && 0 <= j < |s.tickets| ==> s.tickets[j].key != k
  }

  ghost predicate PreviousOk(s: State, i: nat)
    requires i < |s.tickets|
  {
    var t := s.tickets[i];
    if t.previous.None? then ReleasedBefore(s, t.key, i)
    else t.previous.value < i && s.tickets[t.previous.value].key == t.key && NoneBetween(s, t.key, t.previous.value, i)
  }

  ghost predicate TailOk(s: State, k: string) {
    if k in s.chains then
      s.chains[k] < |s.tickets| && s.tickets[s.chains[k]].key == k && NoneBetween(s, k, s.chains[k], |s.tickets|)
      && (s.tickets[s.chains[k]].phase.Released? ==> s.chains[k] in s.cleanups || s.chains[k] in s.watched)
    else ReleasedBefore(s, k, |s.tickets|)
  }

  ghost predicate SettledOk(s: State, i: nat) {
    i in s.settled ==> i < |s.tickets| && ReleasedBefore(s, s.tickets[i].key, i + 1)
  }

  /** A ticket that waited its turn is in only after every earlier ticket of its key is out. */
  ghost predicate EntryOk(s: State, i: nat)
    requires i < |s.tickets|
  {
    !s.tickets[i].phase.Waiting? && !s.tickets[i].timedOut ==> ReleasedBefore(s, s.tickets[i].key, i)
  }

  ghost predicate Inv(s: State) {
    && (forall i: nat :: i < |s.tickets| ==> PreviousOk(s, i) && EntryOk(s, i))
    && (forall k :: TailOk(s, k))
    && (forall i: nat :: SettledOk(s, i))
    && (forall i :: i in s.watched ==> i < |s.tickets|)
  }

  /** Steps never take a release back. */
  lemma {:induction false} StepKeepsReleases(s: State, step: Step)
    requires Enabled(s, step)
    ensures |s.tickets| <= |Apply(s, step).tickets|
    ensures forall j :: 0 <= j < |s.tickets| ==>
      var t, t' := s.tickets[j], Apply(s, step).tickets[j];
      t'.key == t.key && t'.previous == t.previous && (t.phase.Released? ==> t' == t)
  {
  }

  lemma {:induction false} TicketsStayOk(s: State, step: Step, i: nat)
    requires Inv(s) && Enabled(s, step) && i < |s.tickets|
    ensures PreviousOk(Apply(s, step), i) && EntryOk(Apply(s, step), i)
  {
    StepKeepsReleases(s, step);
    var t := s.tickets[i];
    assert PreviousOk(s, i) && EntryOk(s, i);
    if t.previous.Some? { assert SettledOk(s, t.previous.value); }
  }

  lemma {:induction false} TailStaysOk(s: State, step: Step, k: string)
    requires Inv(s) && Enabled(s, step)
    ensures TailOk(Apply(s, step), k)
  {
    StepKeepsReleases(s, step);
    assert TailOk(s, k);
    if step.Fire? { assert SettledOk(s, step.tail); }
  }

  lemma {:induction false} SettledStaysOk(s: State, step: Step, i: nat)
    requires Inv(s) && Enabled(s, step)
    ensures SettledOk(Apply(s, step), i)
  {
    StepKeepsReleases(s, step);
    assert SettledOk(s, i);
    if step == Settle(i) {
      assert PreviousOk(s, i);
      if s.tickets[i].previous.Some? { assert SettledOk(s, s.tickets[i].previous.value); }
    }
  }

  lemma {:induction false} StepKeepsInv(s: State, step: Step)
    requires Inv(s) && Enabled(s, step)
    ensures Inv(Apply(s, step))
  {
    var s' := Apply(s, step);
    forall i: nat | i < |s'.tickets| ensures PreviousOk(s', i) && EntryOk(s', i) {
      if i < |s.tickets| { TicketsStayOk(s, step, i); } else { assert TailOk(s, s'.tickets[i].key); }
    }
    forall k ensures TailOk(s', k) { TailStaysOk(s, step, k); }
    forall i: nat ensures SettledOk(s', i) { SettledStaysOk(s, step, i); }
    forall i | i in s'.watched ensures i < |s'.tickets| {
      if step.Cleanup? { assert TailOk(s, s.tickets[step.i].key); }
    }
  }

  lemma {:induction false} RunKeepsInv(s: State, steps: seq<Step>)
    requires Inv(s) && Runnable(s, steps)
    ensures Inv(Exec(s, steps))
    decreases |steps|
  {
    if steps != [] {
      StepKeepsInv(s, steps[0]);
      RunKeepsInv(Apply(s, steps[0]), steps[1..]);
    }
  }

  lemma {:induction false} InitialInv()
    ensures Inv(INITIAL)
  {
  }

  // ---- main results ----

  /** In every interleaving, whoever waited its turn is in only after all earlier acquires of its key have released. */
  lemma {:induction false} EntryAfterAllEarlierReleases(steps: seq<Step>, i: nat)
    requires Runnable(INITIAL, steps)
    requires var s := Exec(INITIAL, steps);
      i < |s.tickets| && !s.tickets[i].phase.Waiting? && !s.tickets[i].timedOut
    ensures var s := Exec(INITIAL, steps); ReleasedBefore(s, s.tickets[i].key, i)
  {
    InitialInv();
    RunKeepsInv(INITIAL, steps);
    assert EntryOk(Exec(INITIAL, steps), i);
  }

  /** Whoever of key `k` is in, or has been, has every earlier ticket of the key released. */
  ghost predicate InOrder(s: State, k: string) {
    forall i :: 0 <= i < |s.tickets| && s.tickets[i].key == k && !s.tickets[i].phase.Waiting? ==> ReleasedBefore(s, k, i)
  }

  ghost predicate AlwaysInOrder(s: State, steps: seq<Step>, k: string)
    requires Runnable(s, steps)
    decreases |steps|
  {
    InOrder(s, k) && (steps == [] || AlwaysInOrder(Apply(s, steps[0]), steps[1..], k))
  }

  /** A timer that fires on a ticket of key `k` finds all earlier tickets of the key released. */
  ghost predicate TimerHarmless(s: State, step: Step, k: string) {
    step.TimeOut? && step.i < |s.tickets| && s.tickets[step.i].key == k ==> ReleasedBefore(s, k, step.i)
  }

  ghost predicate TimersHarmless(s: State, steps: seq<Step>, k: string)
    requires Runnable(s, steps)
    decreases |steps|
  {
    steps == [] || (TimerHarmless(s, steps[0], k) && TimersHarmless(Apply(s, steps[0]), steps[1..], k))
  }

  /** Whoever enters by its predecessor's promise enters in its turn. */
  lemma {:induction false} EntryIsInTurn(s: State, i: nat)
    requires Inv(s) && Enabled(s, Enter(i))
    ensures ReleasedBefore(s, s.tickets[i].key, i)
  {
    assert PreviousOk(s, i);
    if s.tickets[i].previous.Some? { assert SettledOk(s, s.tickets[i].previous.value); }
  }

  /** A step keeps the order of a key if and only if it is no timer firing too early. */
  lemma {:induction false} StepInOrderExactly(s: State, step: Step, k: string)
    requires Inv(s) && InOrder(s, k) && Enabled(s, step)
    ensures InOrder(Apply(s, step), k) <==> TimerHarmless(s, step, k)
  {
    var s' := Apply(s, step);
    StepKeepsReleases(s, step);
    if step.Enter? { EntryIsInTurn(s, step.i); }
    if step.TimeOut? && s.tickets[step.i].key == k && InOrder(s', k) {
      assert s'.tickets[step.i].phase.Holding? && ReleasedBefore(s', k, step.i);
      forall j | 0 <= j < step.i && s.tickets[j].key == k ensures s.tickets[j].phase.Released? {
        assert s'.tickets[j] == s.tickets[j];
      }
    }
  }

  lemma {:induction false} OrderExactly(s: State, steps: seq<Step>, k: string)
    requires Inv(s) && InOrder(s, k) && Runnable(s, steps)
    ensures AlwaysInOrder(s, steps, k) <==> TimersHarmless(s, steps, k)
    decreases |steps|
  {
    if steps != [] {
      StepKeepsInv(s, steps[0]);
      StepInOrderExactly(s, steps[0], k);
      if InOrder(Apply(s, steps[0]), k) {
        OrderExactly(Apply(s, steps[0]), steps[1..], k);
      }
    }
  }

  /**
   When the lock excludes. In every run, all reached states keep the order of a key
   if and only if no timer of that key fires before all earlier tickets of the key
   are released.
   */
  lemma {:induction false} ExclusionExactly(steps: seq<Step>, k: string)
    requires Runnable(INITIAL, steps)
    ensures AlwaysInOrder(INITIAL, steps, k) <==> TimersHarmless(INITIAL, steps, k)
  {
    InitialInv();
    OrderExactly(INITIAL, steps, k);
  }

  lemma {:induction false} OrderAtEnd(s: State, steps: seq<Step>, k: string)
    requires Runnable(s, steps) && AlwaysInOrder(s, steps, k)
    ensures InOrder(Exec(s, steps), k)
    decreases |steps|
  {
    if steps != [] { OrderAtEnd(Apply(s, steps[0]), steps[1..], k); }
  }

  /** Then at most one ticket of the key holds the lock, and entry follows the order of the acquires. */
  lemma {:induction false} OneHolderInOrder(steps: seq<Step>, i: nat, j: nat)
    requires Runnable(INITIAL, steps)
    requires var s := Exec(INITIAL, steps);
      i < j < |s.tickets| && s.tickets[i].key == s.tickets[j].key && !s.tickets[j].phase.Waiting?
    requires TimersHarmless(INITIAL, steps, Exec(INITIAL, steps).tickets[j].key)
    ensures Exec(INITIAL, steps).tickets[i].phase.Released?
  {
    var k := Exec(INITIAL, steps).tickets[j].key;
    ExclusionExactly(steps, k);
    OrderAtEnd(INITIAL, steps, k);
  }

  /**
   A timer that fires too early lets its ticket in beside the earlier one, for good:
   whatever runs next, as long as that one is not released the two are in together.
   */
  lemma {:induction false} EarlyTimerBreaksExclusion(s: State, i: nat, j: nat, steps: seq<Step>)
    requires i < j < |s.tickets| && s.tickets[i].key == s.tickets[j].key && s.tickets[i].phase.Holding?
    requires Enabled(s, TimeOut(j)) && Runnable(Apply(s, TimeOut(j)), steps)
    requires Release(i) !in steps && Release(j) !in steps
    ensures var s' := Exec(Apply(s, TimeOut(j)), steps);
      |s'.tickets| >= |s.tickets| && s'.tickets[i].phase.Holding? && s'.tickets[j].phase.Holding?
      && !InOrder(s', s.tickets[j].key)
  {
    HoldersStay(Apply(s, TimeOut(j)), i, steps);
    HoldersStay(Apply(s, TimeOut(j)), j, steps);
    var s' := Exec(Apply(s, TimeOut(j)), steps);
    assert !ReleasedBefore(s', s.tickets[j].key, j);
  }

  lemma {:induction false} HoldersStay(s: State, i: nat, steps: seq<Step>)
    requires Runnable(s, steps) && i < |s.tickets| && s.tickets[i].phase.Holding? && Release(i) !in steps
    ensures |Exec(s, steps).tickets| >= |s.tickets|
    ensures Exec(s, steps).tickets[i].phase.Holding? && Exec(s, steps).tickets[i].key == s.tickets[i].key
    decreases |steps|
  {
    if steps != [] {
      assert steps[0] != Release(i);
      HoldersStay(Apply(s, steps[0]), i, steps[1..]);
    }
  }

  /** A run of four steps after which two tickets of one key hold at once. */
  lemma {:induction false} TimeoutBreaksExclusion()
    ensures var steps := [Acquire("f"), Enter(0), Acquire("f"), TimeOut(1)];
      Runnable(INITIAL, steps)
      && Exec(INITIAL, steps).tickets[0].phase.Holding? && Exec(INITIAL, steps).tickets[1].phase.Holding?
  {
    var steps := [Acquire("f"), Enter(0), Acquire("f"), TimeOut(1)];
    var s1 := Apply(INITIAL, steps[0]);
    var s2 := Apply(s1, steps[1]);
    var s3 := Apply(s2, steps[2]);
    var s4 := Apply(s3, steps[3]);
    assert steps[1..][1..] == steps[2..] && steps[2..][1..] == steps[3..] && steps[3..][1..] == [];
    assert Runnable(s4, []) && Exec(s4, []) == s4;
    assert Runnable(s3, steps[3..]) && Exec(s3, steps[3..]) == s4;
    assert Runnable(s2, steps[2..]) && Exec(s2, steps[2..]) == s4;
    assert Runnable(s1, steps[1..]) && Exec(s1, steps[1..]) == s4;
  }

  /** A map entry is deleted only when every ticket of its key, up to the last, has been released. */
  lemma {:induction false} DeletionIsSafe(steps: seq<Step>, step: Step, k: string)
    requires Runnable(INITIAL, steps) && Enabled(Exec(INITIAL, steps), step)
    requires k in Exec(INITIAL, steps).chains && k !in Apply(Exec(INITIAL, steps), step).chains
    ensures ReleasedBefore(Exec(INITIAL, steps), k, |Exec(INITIAL, steps).tickets|)
  {
    InitialInv();
    RunKeepsInv(INITIAL, steps);
    var s := Exec(INITIAL, steps);
    assert TailOk(s, k);
    assert SettledOk(s, s.chains[k]);
  }

  ghost predicate AllSettle(steps: seq<Step>) {
    forall j :: 0 <= j < |steps| ==> steps[j].Settle?
  }

  lemma {:induction false} RunThenStep(s: State, steps: seq<Step>, step: Step)
    requires Runnable(s, steps) && Enabled(Exec(s, steps), step)
    ensures Runnable(s, steps + [step]) && Exec(s, steps + [step]) == Apply(Exec(s, steps), step)
    decreases |steps|
  {
    var all := steps + [step];
    if steps == [] {
      assert all[1..] == [] && Runnable(Apply(s, step), []);
    } else {
      assert all[1..] == steps[1..] + [step];
      RunThenStep(Apply(s, steps[0]), steps[1..], step);
    }
  }

  /** Once all tickets up to `p` are released, promise callbacks alone settle the chain up to `p`. */
  lemma {:induction false} ChainSettles(s: State, p: nat) returns (steps: seq<Step>)
    requires Inv(s) && p < |s.tickets| && ReleasedBefore(s, s.tickets[p].key, p + 1)
    ensures AllSettle(steps) && Runnable(s, steps)
    ensures p in Exec(s, steps).settled && Exec(s, steps).tickets == s.tickets
  {
    assert PreviousOk(s, p);
    steps := [];
    var t := s.tickets[p];
    if t.previous.Some? { steps := ChainSettles(s, t.previous.value); }
    if p !in Exec(s, steps).settled {
      RunThenStep(s, steps, Settle(p));
      steps := steps + [Settle(p)];
    }
  }

  /** No waiter is stranded: when every earlier ticket of its key is released, promise callbacks let it in. */
  lemma {:induction false} WaiterCanEnter(s: State, i: nat) returns (steps: seq<Step>)
    requires Inv(s) && i < |s.tickets| && s.tickets[i].phase.Waiting? && ReleasedBefore(s, s.tickets[i].key, i)
    ensures AllSettle(steps) && Runnable(s, steps) && Enabled(Exec(s, steps), Enter(i))
  {
    assert PreviousOk(s, i);
    steps := [];
    if s.tickets[i].previous.Some? { steps := ChainSettles(s, s.tickets[i].previous.value); }
  }

  /** The map does not leak: while a key with no ticket left inside or waiting has an entry, some callback is still to run. */
  lemma {:induction false} EntryHasPendingCallback(s: State, k: string) returns (step: Step)
    requires Inv(s) && ReleasedBefore(s, k, |s.tickets|) && k in s.chains
    ensures (step.Settle? || step.Cleanup? || step.Fire?) && Enabled(s, step)
  {
    assert TailOk(s, k);
    var t := s.chains[k];
    var steps := ChainSettles(s, t);
    if steps != [] {
      assert steps[0].Settle?;
      step := steps[0];
    } else if t in s.cleanups {
      step := Cleanup(t);
    } else {
      step := Fire(t);
    }
  }
}
