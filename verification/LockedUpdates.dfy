/**
 Read-modify-write under the lock. Each ticket runs `withLock` with an update of
 its file: it reads the content, later writes the updated content, and releases
 in the end, possibly without having written (the section threw). Everything may
 interleave with everything.
 */
module LockedUpdates {
  import opened FileWriteLock

  /** How far the critical section of a ticket has come. */
  datatype Progress<V> = Idle | HasRead(seen: V) | Wrote

  datatype World<!V> = World(lock: State, updates: seq<V -> V>, progress: seq<Progress<V>>, files: map<string, V>, blank: V)

  datatype Action<!V> =
    | Begin(key: string, update: V -> V)  // withLock(key, fn) is called
    | LockStep(step: Step)                // any other step of the lock
    | Read(i: nat)
    | Write(i: nat)

  function Content<V>(w: World<V>, k: string): V { if k in w.files then w.files[k] else w.blank }

  predicate Possible<V>(w: World<V>, a: Action<V>) {
    match a
    case Begin(_, _) => true
    case LockStep(step) => !step.Acquire? && Enabled(w.lock, step)
    case Read(i) => i < |w.lock.tickets| && i < |w.progress| && w.lock.tickets[i].phase.Holding? && w.progress[i].Idle?
    case Write(i) => i < |w.lock.tickets| && i < |w.progress| && i < |w.updates|
                     && w.lock.tickets[i].phase.Holding? && w.progress[i].HasRead?
  }

  function Do<V>(w: World<V>, a: Action<V>): World<V>
    requires Possible(w, a)
  {
    match a
    case Begin(k, f) =>
      w.(lock := FileWriteLock.Apply(w.lock, Acquire(k)), updates := w.updates + [f], progress := w.progress + [Idle])
    case LockStep(step) => w.(lock := FileWriteLock.Apply(w.lock, step))
    case Read(i) => w.(progress := w.progress[i := HasRead(Content(w, w.lock.tickets[i].key))])
    case Write(i) =>
      w.(files := w.files[w.lock.tickets[i].key := w.updates[i](w.progress[i].seen)], progress := w.progress[i := Wrote])
  }

  ghost predicate CanRun<V(!new)>(w: World<V>, actions: seq<Action<V>>)
    decreases |actions|
  {
    actions == [] || (Possible(w, actions[0]) && CanRun(Do(w, actions[0]), actions[1..]))
  }

  ghost function RunAll<V(!new)>(w: World<V>, actions: seq<Action<V>>): World<V>
    requires CanRun(w, actions)
    decreases |actions|
  {
    if actions == [] then w else RunAll(Do(w, actions[0]), actions[1..])
  }

  ghost function Start<V>(blank: V): World<V> { World(INITIAL, [], [], map[], blank) }

  ghost predicate Aligned<V(!new)>(w: World<V>) {
    |w.updates| == |w.progress| == |w.lock.tickets|
  }

  /** The updates of file `k` that were written, applied one after the other in the order of the acquires. */
  ghost function Serial<V(!new)>(w: World<V>, k: string, n: nat): V
    requires Aligned(w) && n <= |w.lock.tickets|
  {
    if n == 0 then w.blank
    else if w.lock.tickets[n - 1].key == k && w.progress[n - 1].Wrote? then w.updates[n - 1](Serial(w, k, n - 1))
    else Serial(w, k, n - 1)
  }

  /** What the lock guarantees about file `k`: it holds the serial result, and whoever has read it holds its current content. */
  ghost predicate Consistent<V(!new)>(w: World<V>, k: string) {
    && Aligned(w) && FileWriteLock.Inv(w.lock) && InOrder(w.lock, k)
    && (forall i :: (0 <= i < |w.progress| && w.lock.tickets[i].key == k && w.lock.tickets[i].phase.Waiting?) ==> w.progress[i].Idle?)
    && (forall i :: (0 <= i < |w.progress| && w.lock.tickets[i].key == k && w.lock.tickets[i].phase.Holding? && w.progress[i].HasRead?)
          ==> w.progress[i].seen == Content(w, k))
    && Content(w, k) == Serial(w, k, |w.lock.tickets|)
  }

  lemma {:induction false} SerialAgrees<V(!new)>(a: World<V>, b: World<V>, k: string, n: nat)
    requires Aligned(a) && Aligned(b) && n <= |a.lock.tickets| && n <= |b.lock.tickets| && a.blank == b.blank
    requires forall i :: 0 <= i < n ==> a.lock.tickets[i].key == b.lock.tickets[i].key && a.updates[i] == b.updates[i]
    requires forall i :: 0 <= i < n && a.lock.tickets[i].key == k ==> a.progress[i].Wrote? == b.progress[i].Wrote?
    ensures Serial(a, k, n) == Serial(b, k, n)
  {
    if n > 0 { SerialAgrees(a, b, k, n - 1); }
  }

  /** No ticket of the key at or after `n` has written: they do not matter. */
  lemma {:induction false} SerialSettled<V(!new)>(w: World<V>, k: string, n: nat, m: nat)
    requires Aligned(w) && n <= m <= |w.lock.tickets|
    requires forall i :: n <= i < m && w.lock.tickets[i].key == k ==> !w.progress[i].Wrote?
    ensures Serial(w, k, m) == Serial(w, k, n)
    decreases m - n
  {
    if n < m { SerialSettled(w, k, n, m - 1); }
  }

  /** While ticket `i` of `k` holds, no other ticket of `k` is inside or has been let in later. */
  lemma {:induction false} HolderIsAlone<V(!new)>(w: World<V>, k: string, i: nat, j: nat)
    requires Consistent(w, k) && i < |w.lock.tickets| && j < |w.lock.tickets| && i != j
    requires w.lock.tickets[i].phase.Holding? && w.lock.tickets[i].key == w.lock.tickets[j].key == k
    ensures j < i ==> w.lock.tickets[j].phase.Released?
    ensures j > i ==> w.lock.tickets[j].phase.Waiting? && w.progress[j].Idle?
  {
  }

  /** The serial content once ticket `i` of `k`, the only one inside, has written. */
  lemma {:induction false} SerialWithWrite<V(!new)>(w: World<V>, k: string, i: nat)
    requires Consistent(w, k) && Possible(w, Write(i)) && w.lock.tickets[i].key == k
    ensures Serial(Do(w, Write(i)), k, |w.lock.tickets|) == w.updates[i](Content(w, k))
  {
    var w', n := Do(w, Write(i)), |w.lock.tickets|;
    forall j: nat | i < j < n && w.lock.tickets[j].key == k ensures !w.progress[j].Wrote? { HolderIsAlone(w, k, i, j); }
    SerialSettled(w, k, i, n);
    SerialSettled(w', k, i + 1, n);
    SerialAgrees(w, w', k, i);
  }

  lemma {:induction false} WriteIsSerial<V(!new)>(w: World<V>, k: string, i: nat)
    requires Consistent(w, k) && Possible(w, Write(i))
    ensures Consistent(Do(w, Write(i)), k)
  {
    if w.lock.tickets[i].key == k {
      SerialWithWrite(w, k, i);
      forall j: nat | j < |w.lock.tickets| && j != i && w.lock.tickets[j].key == k ensures !w.lock.tickets[j].phase.Holding? {
        HolderIsAlone(w, k, i, j);
      }
    } else {
      SerialAgrees(w, Do(w, Write(i)), k, |w.lock.tickets|);
    }
  }

  /** A timer that fires on a ticket of `k` finds all earlier tickets of `k` released. */
  ghost predicate TimerWaits<V(!new)>(w: World<V>, a: Action<V>, k: string) {
    a.LockStep? ==> TimerHarmless(w.lock, a.step, k)
  }

  lemma {:induction false} ActionKeepsConsistent<V(!new)>(w: World<V>, a: Action<V>, k: string)
    requires Consistent(w, k) && Possible(w, a) && TimerWaits(w, a, k)
    ensures Consistent(Do(w, a), k)
  {
    var w', n := Do(w, a), |w.lock.tickets|;
    match a
    case Begin(key, f) =>
      StepKeepsInv(w.lock, Acquire(key));
      StepInOrderExactly(w.lock, Acquire(key), k);
      SerialAgrees(w, w', k, n);
    case LockStep(step) =>
      StepKeepsInv(w.lock, step);
      StepInOrderExactly(w.lock, step, k);
      SerialAgrees(w, w', k, n);
    case Read(i) => SerialAgrees(w, w', k, n);
    case Write(i) => WriteIsSerial(w, k, i);
  }

  /** No timer of `k` fires before all earlier tickets of `k` are released. */
  ghost predicate TimersWait<V(!new)>(w: World<V>, actions: seq<Action<V>>, k: string)
    requires CanRun(w, actions)
    decreases |actions|
  {
    actions == [] || (TimerWaits(w, actions[0], k) && TimersWait(Do(w, actions[0]), actions[1..], k))
  }

  lemma {:induction false} RunKeepsConsistent<V(!new)>(w: World<V>, actions: seq<Action<V>>, k: string)
    requires Consistent(w, k) && CanRun(w, actions) && TimersWait(w, actions, k)
    ensures Consistent(RunAll(w, actions), k)
    decreases |actions|
  {
    if actions != [] {
      ActionKeepsConsistent(w, actions[0], k);
      RunKeepsConsistent(Do(w, actions[0]), actions[1..], k);
    }
  }

  /**
   Locked updates are serializable, file by file: after any interleaving in which no
   timer of file `k` fires too early, `k` holds its updates applied one after the
   other in the order of the acquires, whatever happens to the other files.
   */
  lemma {:induction false} LockedUpdatesAreSerial<V(!new)>(blank: V, actions: seq<Action<V>>, k: string)
    requires CanRun(Start(blank), actions) && TimersWait(Start(blank), actions, k)
    ensures var w := RunAll(Start(blank), actions);
      Aligned(w) && Content(w, k) == Serial(w, k, |w.lock.tickets|)
  {
    RunKeepsConsistent(Start(blank), actions, k);
  }

  // ---- what an early timer does ----

  /** The timer of ticket `j` fires, `j` reads, and both write. */
  function Overlap<V>(i: nat, j: nat): seq<Action<V>> { [LockStep(TimeOut(j)), Read(j), Write(i), Write(j)] }

  /**
   An update is lost. While ticket `i` of a file has read and not yet written, the
   timer of a later ticket `j` of that file fires, and both go on: the file ends as
   `j` alone would have left it. That is the serial result if and only if the two
   updates make no difference to each other there.
   */
  lemma {:induction false} TimeoutLosesUpdate<V(!new)>(w: World<V>, k: string, i: nat, j: nat)
    requires Consistent(w, k) && i < j < |w.lock.tickets| && w.lock.tickets[i].key == w.lock.tickets[j].key == k
    requires w.lock.tickets[i].phase.Holding? && w.progress[i].HasRead? && w.lock.tickets[j].phase.Waiting?
    ensures CanRun(w, Overlap(i, j))
    ensures var after, seen, f, g := RunAll(w, Overlap(i, j)), w.progress[i].seen, w.updates[i], w.updates[j];
      && Aligned(after) && Content(after, k) == g(seen)
      && (Content(after, k) == Serial(after, k, |after.lock.tickets|) <==> g(seen) == g(f(seen)))
  {
    var seen := w.progress[i].seen;
    var w1 := Do(w, LockStep(TimeOut(j)));
    var w2 := Do(w1, Read(j));
    var w3 := Do(w2, Write(i));
    var w4 := Do(w3, Write(j));
    OverlapRuns(w, i, j);
    OverlapIsSerial(w, k, i, j, w4);
  }

  lemma {:induction false} OverlapRuns<V(!new)>(w: World<V>, i: nat, j: nat)
    requires Aligned(w) && i < j < |w.lock.tickets|
    requires w.lock.tickets[i].phase.Holding? && w.progress[i].HasRead? && w.lock.tickets[j].phase.Waiting? && w.progress[j].Idle?
    ensures CanRun(w, Overlap(i, j))
    ensures RunAll(w, Overlap(i, j)) == Do(Do(Do(Do(w, LockStep(TimeOut(j))), Read(j)), Write(i)), Write(j))
  {
    var w1 := Do(w, LockStep(TimeOut(j)));
    var w2 := Do(w1, Read(j));
    var w3 := Do(w2, Write(i));
    hide CanRun, RunAll;
    var rest: seq<Action<V>> := [];
    assert CanRun(Do(w3, Write(j)), rest) && RunAll(Do(w3, Write(j)), rest) == Do(w3, Write(j)) by { NoActions(Do(w3, Write(j))); }
    RunCons(w3, Write(j), []);
    RunCons(w2, Write(i), [Write(j)] + []);
    RunCons(w1, Read(j), [Write(i)] + ([Write(j)] + []));
    RunCons(w, LockStep(TimeOut(j)), [Read(j)] + ([Write(i)] + ([Write(j)] + [])));
    assert Overlap(i, j) == [LockStep(TimeOut(j))] + ([Read(j)] + ([Write(i)] + ([Write(j)] + rest)));
  }

  lemma {:induction false} NoActions<V(!new)>(w: World<V>)
    ensures CanRun(w, []) && RunAll(w, []) == w
  {
  }

  lemma {:induction false} RunCons<V(!new)>(w: World<V>, a: Action<V>, rest: seq<Action<V>>)
    requires Possible(w, a) && CanRun(Do(w, a), rest)
    ensures CanRun(w, [a] + rest) && RunAll(w, [a] + rest) == RunAll(Do(w, a), rest)
  {
    assert ([a] + rest)[1..] == rest;
  }

  /** What the holder has read is what the tickets before it left. */
  lemma {:induction false} SeenIsSerial<V(!new)>(w: World<V>, k: string, i: nat)
    requires Consistent(w, k) && i < |w.lock.tickets| && w.lock.tickets[i].key == k
    requires w.lock.tickets[i].phase.Holding? && w.progress[i].HasRead?
    ensures w.progress[i].seen == Serial(w, k, i)
    ensures forall m :: i < m < |w.lock.tickets| && w.lock.tickets[m].key == k ==> !w.progress[m].Wrote?
  {
    forall m: nat | i < m < |w.lock.tickets| && w.lock.tickets[m].key == k ensures !w.progress[m].Wrote? { HolderIsAlone(w, k, i, m); }
    SerialSettled(w, k, i, |w.lock.tickets|);
  }

  /** Of the tickets of `k` from `i` on, just `i` and `j` have written. */
  lemma {:induction false} TwoWrites<V(!new)>(w: World<V>, k: string, i: nat, j: nat)
    requires Aligned(w) && i < j < |w.lock.tickets| && w.lock.tickets[i].key == w.lock.tickets[j].key == k
    requires w.progress[i].Wrote? && w.progress[j].Wrote?
    requires forall m :: i < m < |w.lock.tickets| && m != j && w.lock.tickets[m].key == k ==> !w.progress[m].Wrote?
    ensures Serial(w, k, |w.lock.tickets|) == w.updates[j](w.updates[i](Serial(w, k, i)))
  {
    hide Serial;
    WriteCounts(w, k, i);
    SerialSettled(w, k, i + 1, j);
    WriteCounts(w, k, j);
    SerialSettled(w, k, j + 1, |w.lock.tickets|);
  }

  lemma {:induction false} WriteCounts<V(!new)>(w: World<V>, k: string, i: nat)
    requires Aligned(w) && i < |w.lock.tickets| && w.lock.tickets[i].key == k && w.progress[i].Wrote?
    ensures Serial(w, k, i + 1) == w.updates[i](Serial(w, k, i))
  {
  }

  /** The serial result when `i` and `j` have written besides those that had. */
  lemma {:induction false} OverlapIsSerial<V(!new)>(w: World<V>, k: string, i: nat, j: nat, after: World<V>)
    requires Consistent(w, k) && Aligned(after) && i < j < |w.lock.tickets| == |after.lock.tickets|
    requires w.lock.tickets[i].key == w.lock.tickets[j].key == k && w.lock.tickets[i].phase.Holding? && w.progress[i].HasRead?
    requires after.blank == w.blank && after.updates == w.updates
    requires forall m :: 0 <= m < |w.lock.tickets| ==> after.lock.tickets[m].key == w.lock.tickets[m].key
    requires forall m :: 0 <= m < |w.lock.tickets| ==> (after.progress[m].Wrote? <==> w.progress[m].Wrote? || m == i || m == j)
    ensures Serial(after, k, |after.lock.tickets|) == w.updates[j](w.updates[i](w.progress[i].seen))
  {
    SeenIsSerial(w, k, i);
    hide Consistent, Serial;
    SerialAgrees(w, after, k, i);
    TwoWrites(after, k, i, j);
  }

  // ---- every update can be run ----

  lemma {:induction false} RunConcat<V(!new)>(w: World<V>, a: seq<Action<V>>, b: seq<Action<V>>)
    requires CanRun(w, a) && CanRun(RunAll(w, a), b)
    ensures CanRun(w, a + b) && RunAll(w, a + b) == RunAll(RunAll(w, a), b)
    decreases |a|
  {
    if a == [] {
      assert a + b == b;
    } else {
      var next, rest := Do(w, a[0]), a[1..];
      assert CanRun(next, rest) && RunAll(w, a) == RunAll(next, rest);
      HeadAndTail(a, b);
      hide *;
      RunConcat(next, rest, b);
      RunCons(w, a[0], rest + b);
    }
  }

  lemma {:induction false} HeadAndTail<T>(a: seq<T>, b: seq<T>)
    requires a != []
    ensures a + b == [a[0]] + (a[1..] + b)
  {
  }

  /** Promise callbacks as actions: they move the lock and nothing else. */
  lemma {:induction false} RunSettles<V(!new)>(w: World<V>, steps: seq<Step>) returns (actions: seq<Action<V>>)
    requires AllSettle(steps) && Runnable(w.lock, steps)
    ensures CanRun(w, actions) && RunAll(w, actions) == w.(lock := Exec(w.lock, steps))
    ensures Exec(w.lock, steps).tickets == w.lock.tickets
    decreases |steps|
  {
    actions := [];
    if steps != [] {
      assert AllSettle(steps[1..]) by { forall j | 0 <= j < |steps| - 1 ensures steps[1..][j].Settle? { assert steps[1..][j] == steps[j + 1]; } }
      var rest := RunSettles(Do(w, LockStep(steps[0])), steps[1..]);
      actions := [LockStep(steps[0])] + rest;
      RunCons(w, LockStep(steps[0]), rest);
    }
  }

  /** Enter, read, write, release. */
  function Section<V>(i: nat): seq<Action<V>> { [LockStep(Enter(i)), Read(i), Write(i), LockStep(Release(i))] }

  lemma {:induction false} SectionRuns<V(!new)>(w: World<V>, i: nat)
    requires Aligned(w) && i < |w.lock.tickets| && Enabled(w.lock, Enter(i)) && w.progress[i].Idle?
    ensures CanRun(w, Section(i))
    ensures var k, after := w.lock.tickets[i].key, RunAll(w, Section(i));
      && after.files == w.files[k := w.updates[i](Content(w, k))] && after.blank == w.blank && Aligned(after)
      && after.lock == FileWriteLock.Apply(FileWriteLock.Apply(w.lock, Enter(i)), Release(i))
  {
    var w1 := Do(w, LockStep(Enter(i)));
    var w2 := Do(w1, Read(i));
    var w3 := Do(w2, Write(i));
    var w4 := Do(w3, LockStep(Release(i)));
    var rest: seq<Action<V>> := [];
    hide CanRun, RunAll;
    assert CanRun(w4, rest) && RunAll(w4, rest) == w4 by { NoActions(w4); }
    RunCons(w3, LockStep(Release(i)), rest);
    RunCons(w2, Write(i), [LockStep(Release(i))] + rest);
    RunCons(w1, Read(i), [Write(i)] + ([LockStep(Release(i))] + rest));
    RunCons(w, LockStep(Enter(i)), [Read(i)] + ([Write(i)] + ([LockStep(Release(i))] + rest)));
    assert Section(i) == [LockStep(Enter(i))] + ([Read(i)] + ([Write(i)] + ([LockStep(Release(i))] + rest)));
  }

  /** The file is free: all its tickets are released. */
  ghost predicate Free<V(!new)>(w: World<V>, k: string) {
    Aligned(w) && FileWriteLock.Inv(w.lock) && ReleasedBefore(w.lock, k, |w.lock.tickets|)
  }

  /** An update of a free file can always be run to its end; it makes the file what the update says, and no other file changes. */
  lemma {:induction false} UpdateCompletes<V(!new)>(w: World<V>, k: string, f: V -> V) returns (actions: seq<Action<V>>)
    requires Free(w, k)
    ensures CanRun(w, actions)
    ensures var after := RunAll(w, actions);
      && Free(after, k) && Content(after, k) == f(Content(w, k))
      && forall other :: other != k ==> Content(after, other) == Content(w, other)
  {
    var i := |w.lock.tickets|;
    var begun := Do(w, Begin(k, f));
    StepKeepsInv(w.lock, Acquire(k));
    var steps := WaiterCanEnter(begun.lock, i);
    var settles := RunSettles(begun, steps);
    var ready := RunAll(begun, settles);
    RunKeepsInv(begun.lock, steps);
    SectionRuns(ready, i);
    StepKeepsInv(ready.lock, Enter(i));
    StepKeepsInv(FileWriteLock.Apply(ready.lock, Enter(i)), Release(i));
    hide CanRun, RunAll, Inv;
    RunConcat(begun, settles, Section(i));
    RunCons(w, Begin(k, f), settles + Section(i));
    actions := [Begin(k, f)] + (settles + Section(i));
  }

  /** So can any number of updates of one file, one after the other. */
  function Folded<V>(updates: seq<V -> V>, v: V): V {
    if updates == [] then v else updates[|updates| - 1](Folded(updates[..|updates| - 1], v))
  }

  lemma {:induction false} UpdatesComplete<V(!new)>(blank: V, k: string, updates: seq<V -> V>) returns (actions: seq<Action<V>>)
    ensures CanRun(Start(blank), actions)
    ensures var after := RunAll(Start(blank), actions);
      Free(after, k) && Content(after, k) == Folded(updates, blank)
  {
    if updates == [] {
      actions := [];
      InitialInv();
      NoActions(Start(blank));
    } else {
      var before := UpdatesComplete(blank, k, updates[..|updates| - 1]);
      var w := RunAll(Start(blank), before);
      var last := UpdateCompletes(w, k, updates[|updates| - 1]);
      RunConcat(Start(blank), before, last);
      actions := before + last;
    }
  }
}
