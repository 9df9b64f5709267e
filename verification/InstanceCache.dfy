/**
 The least-recently-used cache of parsed soundfonts, keyed by path and
 modification time, bounded in entries and in bytes. The cache is a map in
 insertion order; using an entry moves it to the end.
 */
module InstanceCache {
  import opened Sequences
  import opened Wrappers

  datatype Sf2 = Sf2(presets: seq<string>)

  /** The disk and the parser: bytes by path and modification time, if readable; an instance, if well-formed. */
  datatype Source = Source(read: (string, string) -> Option<seq<int>>, parse: seq<int> -> Option<Sf2>)

  /** A map key: the path, a colon, the modification time. */
  datatype MapKey = MapKey(text: string)

  datatype Slot = Slot(key: MapKey, sf2: Sf2, bytes: nat)
  datatype Cache = Cache(slots: seq<Slot>, bytes: int, parses: nat)

  /** How a modification time prints: never with a colon. */
  predicate IsMtime(m: string) { ':' !in m }

  function Key(path: string, mtime: string): MapKey { MapKey(path + ":" + mtime) }

  /** A key tells its path and modification time, whatever colons the path has. */
  lemma {:induction false} KeyInjective(p: string, m: string, p': string, m': string)
    requires IsMtime(m) && IsMtime(m') && Key(p, m) == Key(p', m')
    ensures p == p' && m == m'
  {
    LastColon(p, m);
    LastColon(p', m');
    hide Key;
    NoColonBehind(Key(p, m).text, |p|, |p'|);
    NoColonBehind(Key(p, m).text, |p'|, |p|);
  }

  lemma {:induction false} LastColon(p: string, m: string)
    requires IsMtime(m)
    ensures var k := Key(p, m).text;
      |p| < |k| && k[|p|] == ':' && ':' !in k[|p| + 1..] && k[..|p|] == p && k[|p| + 1..] == m
  {
    assert Key(p, m).text[|p| + 1..] == m;
  }

  lemma {:induction false} NoColonBehind(k: string, i: nat, j: nat)
    requires i < |k| && j < |k| && ':' !in k[i + 1..] && k[j] == ':'
    ensures j <= i
  {
  }

  /** What the program gets without a cache. */
  function Uncached(source: Source, path: string, mtime: string): Option<Sf2> {
    var buf := source.read(path, mtime);
    if buf.None? then None else source.parse(buf.value)
  }

  // ---- the cache on values ----

  function KeysOf(slots: seq<Slot>): (keys: seq<MapKey>)
    ensures |keys| == |slots| && forall k :: 0 <= k < |slots| ==> keys[k] == slots[k].key
  {
    seq(|slots|, k requires 0 <= k < |slots| => slots[k].key)
  }

  function KeyOf(s: Slot): MapKey { s.key }

  /** Where the key is, or the number of slots. */
  function SlotOf(slots: seq<Slot>, key: MapKey): nat { IndexBy(slots, KeyOf, key) }

  function Total(slots: seq<Slot>): nat {
    if slots == [] then 0 else Total(slots[..|slots| - 1]) + slots[|slots| - 1].bytes
  }

  predicate StartsWith(s: string, prefix: string) { prefix <= s }

  predicate Matches(key: MapKey, path: string, exact: bool) {
    StartsWith(key.text, path + ":") || (exact && key == MapKey(path))
  }

  /** The slots whose key does not belong to `path`; `exact` also gives up a slot keyed by the path itself. */
  function Others(slots: seq<Slot>, path: string, exact: bool): seq<Slot> {
    if slots == [] then [] else
      Others(slots[..|slots| - 1], path, exact)
      + if Matches(slots[|slots| - 1].key, path, exact) then [] else [slots[|slots| - 1]]
  }

  function Drop(c: Cache, path: string, exact: bool): Cache {
    var kept := Others(c.slots, path, exact);
    c.(slots := kept, bytes := c.bytes - Total(c.slots) + Total(kept))
  }

  /** Gives up the oldest slots until both budgets are met, but no last one for its size. */
  function Evict(c: Cache, capacity: nat, maxBytes: int): Cache
    decreases |c.slots|
  {
    if |c.slots| > capacity || (c.bytes > maxBytes && |c.slots| > 1)
    then Evict(c.(slots := c.slots[1..], bytes := c.bytes - c.slots[0].bytes), capacity, maxBytes)
    else c
  }

  function Touch(c: Cache, i: nat): Cache
    requires i < |c.slots|
  {
    c.(slots := RemoveAt(c.slots, i) + [c.slots[i]])
  }

  /** What a lookup leaves; a miss drops what the path had before it reads and parses. */
  function Get(c: Cache, source: Source, path: string, mtime: string, capacity: nat, maxBytes: int): Cache {
    var i := SlotOf(c.slots, Key(path, mtime));
    if i < |c.slots| then Touch(c, i)
    else
      var dropped := Drop(c, path, false);
      var buf := source.read(path, mtime);
      if buf.None? || source.parse(buf.value).None? then dropped
      else
        var slot := Slot(Key(path, mtime), source.parse(buf.value).value, |buf.value|);
        Evict(Cache(dropped.slots + [slot], dropped.bytes + slot.bytes, dropped.parses + 1), capacity, maxBytes)
  }

  /** What a lookup returns; None when reading or parsing throws. */
  function Found(c: Cache, source: Source, path: string, mtime: string): Option<Sf2> {
    var i := SlotOf(c.slots, Key(path, mtime));
    if i < |c.slots| then Some(c.slots[i].sf2) else Uncached(source, path, mtime)
  }

  // ---- the cache itself ----

  ghost predicate Distinct(slots: seq<Slot>) {
    forall i, j :: 0 <= i < j < |slots| ==> slots[i].key != slots[j].key
  }

  lemma {:induction false} TotalConcat(a: seq<Slot>, b: seq<Slot>)
    ensures Total(a + b) == Total(a) + Total(b)
  {
    if b == [] {
      assert a + b == a;
    } else {
      assert (a + b)[..|a + b| - 1] == a + b[..|b| - 1];
      TotalConcat(a, b[..|b| - 1]);
    }
  }

  lemma {:induction false} TotalWithout(slots: seq<Slot>, i: nat)
    requires i < |slots|
    ensures Total(RemoveAt(slots, i)) == Total(slots) - slots[i].bytes
  {
    assert slots == slots[..i] + ([slots[i]] + slots[i + 1..]) && [] + [slots[i]] == [slots[i]];
    TotalConcat(slots[..i], [slots[i]] + slots[i + 1..]);
    TotalConcat([slots[i]], slots[i + 1..]);
    TotalConcat(slots[..i], slots[i + 1..]);
    assert [slots[i]][..0] == [];
  }

  lemma {:induction false} OthersSnoc(all: seq<Slot>, i: nat, path: string, exact: bool)
    requires i < |all|
    ensures Others(all[..i + 1], path, exact) == Others(all[..i], path, exact) + if Matches(all[i].key, path, exact) then [] else [all[i]]
    ensures all[i..] == [all[i]] + all[i + 1..]
  {
    assert all[..i + 1][..i] == all[..i];
  }

  /** Of the slots and bytes that `was` had, the first `i` slots are looked at: those of the path are gone. */
  ghost predicate HalfDropped(slots: seq<Slot>, bytes: int, was: Cache, i: nat, path: string, exact: bool) {
    && i <= |was.slots| && slots == Others(was.slots[..i], path, exact) + was.slots[i..] && Distinct(slots)
    && bytes - Total(slots) == was.bytes - Total(was.slots)
  }

  lemma {:induction false} NothingDropped(c: Cache, path: string, exact: bool)
    requires Distinct(c.slots)
    ensures HalfDropped(c.slots, c.bytes, c, 0, path, exact)
  {
    assert c.slots[0..] == c.slots && [] + c.slots == c.slots;
  }

  lemma {:induction false} AllDropped(slots: seq<Slot>, bytes: int, c: Cache, path: string, exact: bool)
    requires HalfDropped(slots, bytes, c, |c.slots|, path, exact)
    ensures Distinct(slots) && Drop(c, path, exact) == Cache(slots, bytes, c.parses)
  {
    var all := c.slots;
    assert all[..|all|] == all && all[|all|..] == [];
    assert Others(all, path, exact) + [] == Others(all, path, exact);
  }

  lemma {:induction false} IndexIsUnique(slots: seq<Slot>, k: nat)
    requires Distinct(slots) && k < |slots|
    ensures SlotOf(slots, slots[k].key) == k
  {
    var i := SlotOf(slots, slots[k].key);
    assert forall j :: 0 <= j < k ==> slots[j].key != slots[k].key;
    assert i <= k by { assert slots[k].key == slots[k].key; }
    assert slots[i].key == slots[k].key;
    assert !(i < k);
  }

  lemma {:induction false} WithoutAt(slots: seq<Slot>, k: nat, i: nat)
    requires k < |slots| && i < |slots| - 1
    ensures RemoveAt(slots, k)[i] == slots[if i < k then i else i + 1]
  {
  }

  lemma {:induction false} DistinctWithout(slots: seq<Slot>, k: nat)
    requires Distinct(slots) && k < |slots|
    ensures Distinct(RemoveAt(slots, k))
    ensures forall i :: 0 <= i < |slots| - 1 ==> RemoveAt(slots, k)[i].key != slots[k].key
  {
    var rest := RemoveAt(slots, k);
    hide RemoveAt;
    forall i | 0 <= i < |slots| - 1 ensures rest[i] == slots[if i < k then i else i + 1] { WithoutAt(slots, k, i); }
  }

  lemma {:induction false} DeleteMiddle(slots: seq<Slot>, k: nat)
    requires Distinct(slots) && k < |slots|
    ensures SlotOf(slots, slots[k].key) == k && Distinct(RemoveAt(slots, k))
    ensures Total(RemoveAt(slots, k)) == Total(slots) - slots[k].bytes
  {
    hide *;
    IndexIsUnique(slots, k);
    DistinctWithout(slots, k);
    TotalWithout(slots, k);
  }

  /** The slots with `i` looked at: those kept, the next one, and the rest. */
  lemma {:induction false} NextSlot(slots: seq<Slot>, bytes: int, was: Cache, i: nat, path: string, exact: bool)
    returns (kept: seq<Slot>, rest: seq<Slot>)
    requires HalfDropped(slots, bytes, was, i, path, exact) && i < |was.slots|
    ensures kept == Others(was.slots[..i], path, exact) && rest == was.slots[i + 1..]
    ensures slots == kept + [was.slots[i]] + rest && |kept| < |slots| && slots[|kept|] == was.slots[i]
    ensures RemoveAt(slots, |kept|) == kept + rest
  {
    kept, rest := Others(was.slots[..i], path, exact), was.slots[i + 1..];
    assert was.slots[i..] == [was.slots[i]] + rest;
    RemoveMiddle(kept, was.slots[i], rest);
  }

  lemma {:induction false} OthersNext(all: seq<Slot>, i: nat, path: string, exact: bool)
    requires i < |all|
    ensures var kept := Others(all[..i], path, exact);
      Others(all[..i + 1], path, exact) == if Matches(all[i].key, path, exact) then kept else kept + [all[i]]
  {
    OthersSnoc(all, i, path, exact);
  }

  /** Looking at one more slot that is not the path's. */
  lemma {:induction false} KeepStep(slots: seq<Slot>, bytes: int, was: Cache, i: nat, path: string, exact: bool)
    requires HalfDropped(slots, bytes, was, i, path, exact) && i < |was.slots| && !Matches(was.slots[i].key, path, exact)
    ensures HalfDropped(slots, bytes, was, i + 1, path, exact)
  {
    OthersNext(was.slots, i, path, exact);
    var kept, rest := NextSlot(slots, bytes, was, i, path, exact);
  }

  /** Looking at one that is: it is where its key says, and goes. */
  lemma {:induction false} DropStep(slots: seq<Slot>, bytes: int, was: Cache, i: nat, path: string, exact: bool) returns (k: nat)
    requires HalfDropped(slots, bytes, was, i, path, exact) && i < |was.slots| && Matches(was.slots[i].key, path, exact)
    ensures k < |slots| && slots[k] == was.slots[i] && SlotOf(slots, slots[k].key) == k
    ensures HalfDropped(RemoveAt(slots, k), bytes - slots[k].bytes, was, i + 1, path, exact)
  {
    OthersNext(was.slots, i, path, exact);
    var kept, rest := NextSlot(slots, bytes, was, i, path, exact);
    k := |kept|;
    DeleteMiddle(slots, k);
  }

  class SF2InstanceCache {
    const capacity: nat
    const maxBytes: int
    var slots: seq<Slot>
    var bytes: int
    var parseCount: nat

    ghost function Now(): Cache
      reads this
    {
      Cache(slots, bytes, parseCount)
    }

    constructor (capacity: nat, maxBytes: int)
      ensures Now() == Cache([], 0, 0) && this.capacity == capacity && this.maxBytes == maxBytes
    {
      this.capacity, this.maxBytes := capacity, maxBytes;
      slots, bytes, parseCount := [], 0, 0;
    }

    method Find(key: MapKey) returns (i: nat)
      ensures i == SlotOf(slots, key)
    {
      i := 0;
      while i < |slots| && slots[i].key != key
        invariant i <= |slots| && forall j :: 0 <= j < i ==> slots[j].key != key
      {
        i := i + 1;
      }
    }

    method Delete(key: MapKey)
      modifies this`slots, this`bytes
      ensures var i := SlotOf(old(slots), key);
        if i == |old(slots)| then slots == old(slots) && bytes == old(bytes)
        else slots == RemoveAt(old(slots), i) && bytes == old(bytes) - old(slots)[i].bytes
    {
      var i := Find(key);
      if i < |slots| {
        bytes := bytes - slots[i].bytes;
        slots := slots[..i] + slots[i + 1..];
      }
    }

    /** One key of the snapshot. */
    method DeleteMatching(key: MapKey, path: string, exact: bool, ghost was: Cache, ghost i: nat)
      requires HalfDropped(slots, bytes, was, i, path, exact) && i < |was.slots| && was.slots[i].key == key
      modifies this`slots, this`bytes
      ensures HalfDropped(slots, bytes, was, i + 1, path, exact)
    {
      if Matches(key, path, exact) {
        ghost var _ := DropStep(slots, bytes, was, i, path, exact);
        hide HalfDropped, Matches, Total;
        Delete(key);
      } else {
        KeepStep(slots, bytes, was, i, path, exact);
      }
    }

    /** Deletes every key of the path, over a snapshot of the keys. */
    method DropPath(path: string, exact: bool)
      requires Distinct(slots)
      modifies this`slots, this`bytes
      ensures Distinct(slots) && Now() == Drop(old(Now()), path, exact)
    {
      ghost var was := Now();
      var keys := KeysOf(slots);
      NothingDropped(was, path, exact);
      hide HalfDropped, Distinct, KeysOf, Drop;
      for i := 0 to |keys|
        invariant HalfDropped(slots, bytes, was, i, path, exact)
      {
        DeleteMatching(keys[i], path, exact, was, i);
      }
      AllDropped(slots, bytes, was, path, exact);
    }

    method GetForPath(source: Source, path: string, mtime: string) returns (r: Option<Sf2>)
      requires Distinct(slots)
      modifies this
      ensures Now() == Get(old(Now()), source, path, mtime, capacity, maxBytes)
      ensures r == Found(old(Now()), source, path, mtime)
    {
      hide Others, Total, Distinct, Matches, Drop, Evict;
      var i := Find(Key(path, mtime));
      if i < |slots| {
        var hit := slots[i];
        slots := slots[..i] + slots[i + 1..] + [hit];
        return Some(hit.sf2);
      }
      DropPath(path, false);
      var buf := source.read(path, mtime);
      if buf.None? { return None; }
      r := source.parse(buf.value);
      if r.None? { return; }
      parseCount := parseCount + 1;
      slots := slots + [Slot(Key(path, mtime), r.value, |buf.value|)];
      bytes := bytes + |buf.value|;
      EvictOldest();
    }

    /** Ends even with a capacity of 0; the program does not end with a negative one. */
    method EvictOldest()
      modifies this`slots, this`bytes
      ensures Now() == Evict(old(Now()), capacity, maxBytes)
    {
      while |slots| > capacity || (bytes > maxBytes && |slots| > 1)
        invariant Evict(Now(), capacity, maxBytes) == Evict(old(Now()), capacity, maxBytes) && parseCount == old(parseCount)
        decreases |slots|
      {
        bytes := bytes - slots[0].bytes;
        slots := slots[1..];
      }
    }

    method Invalidate(prefix: string)
      requires Distinct(slots)
      modifies this`slots, this`bytes
      ensures Now() == Drop(old(Now()), prefix, true)
    {
      DropPath(prefix, true);
    }

    method Clear()
      modifies this
      ensures Now() == Cache([], 0, 0)
    {
      slots, parseCount, bytes := [], 0, 0;
    }
  }

  // ---- bounds ----

  ghost predicate Within(slots: seq<Slot>, capacity: nat, maxBytes: int) {
    |slots| <= capacity && (Total(slots) <= maxBytes || |slots| <= 1)
  }

  /** The byte counter is right, keys are unique, and both budgets hold. */
  ghost predicate Inv(c: Cache, capacity: nat, maxBytes: int) {
    Distinct(c.slots) && c.bytes == Total(c.slots) && Within(c.slots, capacity, maxBytes)
  }

  /** How many of the oldest slots must go. */
  ghost function Excess(slots: seq<Slot>, capacity: nat, maxBytes: int): (n: nat)
    ensures n <= |slots|
  {
    if Within(slots, capacity, maxBytes) || slots == [] then 0 else 1 + Excess(slots[1..], capacity, maxBytes)
  }

  lemma {:induction false} EvictIsExcess(c: Cache, capacity: nat, maxBytes: int)
    requires c.bytes == Total(c.slots)
    ensures var rest := c.slots[Excess(c.slots, capacity, maxBytes)..];
      Evict(c, capacity, maxBytes) == Cache(rest, Total(rest), c.parses)
    decreases |c.slots|
  {
    if Within(c.slots, capacity, maxBytes) {
      assert c.slots[0..] == c.slots;
    } else {
      var rest := c.slots[1..];
      var less, m := c.(slots := rest, bytes := c.bytes - c.slots[0].bytes), Excess(rest, capacity, maxBytes);
      TotalOfRest(c.slots);
      assert Evict(c, capacity, maxBytes) == Evict(less, capacity, maxBytes);
      assert Excess(c.slots, capacity, maxBytes) == m + 1;
      hide Total, Within, Evict, Excess;
      EvictIsExcess(less, capacity, maxBytes);
      RestOfRest(c.slots, m);
    }
  }

  lemma {:induction false} TotalOfRest(slots: seq<Slot>)
    requires slots != []
    ensures Total(slots[1..]) == Total(slots) - slots[0].bytes
  {
    TotalWithout(slots, 0);
    assert slots[..0] + slots[1..] == slots[1..];
  }

  lemma {:induction false} RestOfRest(slots: seq<Slot>, m: nat)
    requires m < |slots|
    ensures slots[1..][m..] == slots[m + 1..]
  {
  }

  lemma {:induction false} ExcessIsLeast(slots: seq<Slot>, capacity: nat, maxBytes: int, j: nat)
    requires j <= Excess(slots, capacity, maxBytes)
    ensures Within(slots[j..], capacity, maxBytes) <==> j == Excess(slots, capacity, maxBytes)
  {
    if j == 0 {
      assert slots[0..] == slots;
    } else {
      ExcessIsLeast(slots[1..], capacity, maxBytes, j - 1);
      assert slots[1..][j - 1..] == slots[j..];
    }
  }

  lemma {:induction false} ExcessSparesNewest(slots: seq<Slot>, capacity: nat, maxBytes: int)
    requires capacity > 0 && slots != []
    ensures Excess(slots, capacity, maxBytes) < |slots|
  {
    if |slots| > 1 { ExcessSparesNewest(slots[1..], capacity, maxBytes); }
  }

  /** Eviction takes the oldest slots, no more than the budgets ask for, and never the newest. */
  lemma {:induction false} EvictTakesOldest(c: Cache, capacity: nat, maxBytes: int) returns (n: nat)
    requires c.bytes == Total(c.slots)
    ensures n <= |c.slots| && Evict(c, capacity, maxBytes) == Cache(c.slots[n..], Total(c.slots[n..]), c.parses)
    ensures Within(c.slots[n..], capacity, maxBytes) && forall j :: 0 <= j < n ==> !Within(c.slots[j..], capacity, maxBytes)
    ensures capacity > 0 && c.slots != [] ==> n < |c.slots|
  {
    n := Excess(c.slots, capacity, maxBytes);
    EvictIsExcess(c, capacity, maxBytes);
    hide Within, Total, Evict, Excess;
    ExcessIsLeast(c.slots, capacity, maxBytes, n);
    forall j | 0 <= j < n ensures !Within(c.slots[j..], capacity, maxBytes) {
      ExcessIsLeast(c.slots, capacity, maxBytes, j);
    }
    if capacity > 0 && c.slots != [] { ExcessSparesNewest(c.slots, capacity, maxBytes); }
  }

  lemma {:induction false} OthersMembers(slots: seq<Slot>, path: string, exact: bool)
    ensures forall s :: s in Others(slots, path, exact) <==> s in slots && !Matches(s.key, path, exact)
  {
    hide Matches;
    if slots != [] {
      var init, last := slots[..|slots| - 1], slots[|slots| - 1];
      OthersMembers(init, path, exact);
      assert slots == init + [last];
      forall s ensures s in slots <==> s in init || s == last {}
    }
  }

  lemma {:induction false} OthersAreFewer(slots: seq<Slot>, path: string, exact: bool)
    ensures Total(Others(slots, path, exact)) <= Total(slots) && |Others(slots, path, exact)| <= |slots|
  {
    hide Matches;
    if slots != [] {
      var init, last := slots[..|slots| - 1], slots[|slots| - 1];
      OthersAreFewer(init, path, exact);
      var kept := Others(init, path, exact);
      if Matches(last.key, path, exact) {
        assert Others(slots, path, exact) == kept;
      } else {
        assert (kept + [last])[..|kept|] == kept;
      }
    }
  }

  lemma {:induction false} OthersDistinct(slots: seq<Slot>, path: string, exact: bool)
    requires Distinct(slots)
    ensures Distinct(Others(slots, path, exact))
  {
    hide Matches;
    if slots != [] {
      var init, last := slots[..|slots| - 1], slots[|slots| - 1];
      OthersDistinct(init, path, exact);
      OthersMembers(init, path, exact);
      var kept := Others(init, path, exact);
      forall i | 0 <= i < |kept| ensures kept[i].key != last.key { assert kept[i] in init; }
      assert Others(slots, path, exact) == kept + if Matches(last.key, path, exact) then [] else [last];
    }
  }

  lemma {:induction false} OthersKeepLess(slots: seq<Slot>, path: string, exact: bool)
    requires Distinct(slots)
    ensures Total(Others(slots, path, exact)) <= Total(slots) && |Others(slots, path, exact)| <= |slots|
    ensures Distinct(Others(slots, path, exact))
    ensures forall s :: s in Others(slots, path, exact) <==> s in slots && !Matches(s.key, path, exact)
  {
    OthersMembers(slots, path, exact);
    OthersAreFewer(slots, path, exact);
    OthersDistinct(slots, path, exact);
  }

  lemma {:induction false} DropKeepsInv(c: Cache, path: string, exact: bool, capacity: nat, maxBytes: int)
    requires Inv(c, capacity, maxBytes)
    ensures Inv(Drop(c, path, exact), capacity, maxBytes)
  {
    OthersKeepLess(c.slots, path, exact);
  }

  /** The cache after dropping the path's slots, with the new one at the end: what eviction starts from. */
  function Stored(c: Cache, path: string, slot: Slot): Cache {
    var dropped := Drop(c, path, false);
    Cache(dropped.slots + [slot], dropped.bytes + slot.bytes, dropped.parses + 1)
  }

  function Fresh(source: Source, path: string, mtime: string): Slot
    requires Uncached(source, path, mtime).Some?
  {
    Slot(Key(path, mtime), Uncached(source, path, mtime).value, |source.read(path, mtime).value|)
  }

  /** A miss that reads and parses: the path's slots go, the new one comes last, and the `n` oldest are evicted. */
  lemma {:induction false} MissStores(c: Cache, source: Source, path: string, mtime: string, capacity: nat, maxBytes: int) returns (n: nat)
    requires Distinct(c.slots) && c.bytes == Total(c.slots)
    requires SlotOf(c.slots, Key(path, mtime)) == |c.slots| && Uncached(source, path, mtime).Some?
    ensures var stored := Others(c.slots, path, false) + [Fresh(source, path, mtime)];
      && n <= |stored| && (forall j :: 0 <= j < |stored| - 1 ==> stored[j].key != Key(path, mtime)) && Distinct(stored)
      && Get(c, source, path, mtime, capacity, maxBytes) == Cache(stored[n..], Total(stored[n..]), c.parses + 1)
      && Within(stored[n..], capacity, maxBytes) && (forall j :: 0 <= j < n ==> !Within(stored[j..], capacity, maxBytes))
      && (capacity > 0 ==> n < |stored|)
  {
    var slot := Fresh(source, path, mtime);
    StoredIsCounted(c, path, mtime, slot);
    var stored := Others(c.slots, path, false) + [slot];
    assert forall j :: 0 <= j < |stored| - 1 ==> stored[j].key != stored[|stored| - 1].key;
    hide Total, Within, Others, Distinct, Matches, Evict;
    n := EvictTakesOldest(Stored(c, path, slot), capacity, maxBytes);
  }

  lemma {:induction false} StoredIsCounted(c: Cache, path: string, mtime: string, slot: Slot)
    requires Distinct(c.slots) && c.bytes == Total(c.slots) && slot.key == Key(path, mtime)
    ensures Stored(c, path, slot).bytes == Total(Stored(c, path, slot).slots)
    ensures Distinct(Others(c.slots, path, false) + [slot])
  {
    var kept := Others(c.slots, path, false);
    OthersKeepLess(c.slots, path, false);
    TotalSnoc(kept, slot);
    KeyMatches(path, mtime, false);
    hide Others, Matches, Total, Key;
    forall i | 0 <= i < |kept| ensures kept[i].key != slot.key {
      assert kept[i] in kept;
    }
  }

  lemma {:induction false} TouchKeepsInv(c: Cache, i: nat, capacity: nat, maxBytes: int)
    requires Inv(c, capacity, maxBytes) && i < |c.slots|
    ensures Inv(Touch(c, i), capacity, maxBytes)
  {
    var rest, hit := RemoveAt(c.slots, i), c.slots[i];
    TotalWithout(c.slots, i);
    DistinctWithout(c.slots, i);
    TotalSnoc(rest, hit);
    hide Total;
  }

  lemma {:induction false} TotalSnoc(slots: seq<Slot>, slot: Slot)
    ensures Total(slots + [slot]) == Total(slots) + slot.bytes
  {
    assert (slots + [slot])[..|slots|] == slots;
  }

  lemma {:induction false} GetKeepsInv(c: Cache, source: Source, path: string, mtime: string, capacity: nat, maxBytes: int)
    requires Inv(c, capacity, maxBytes)
    ensures Inv(Get(c, source, path, mtime, capacity, maxBytes), capacity, maxBytes)
  {
    var i := SlotOf(c.slots, Key(path, mtime));
    if i < |c.slots| {
      TouchKeepsInv(c, i, capacity, maxBytes);
    } else {
      DropKeepsInv(c, path, false, capacity, maxBytes);
      hide Total, Within, Others, Drop;
      if Uncached(source, path, mtime).Some? {
        var n := MissStores(c, source, path, mtime, capacity, maxBytes);
      }
    }
  }

  /** The instance just returned is in the cache, as its newest entry. */
  lemma {:induction false} ReturnedIsKept(c: Cache, source: Source, path: string, mtime: string, capacity: nat, maxBytes: int)
    requires Inv(c, capacity, maxBytes) && capacity > 0 && Found(c, source, path, mtime).Some?
    ensures var after := Get(c, source, path, mtime, capacity, maxBytes).slots;
      && after != []
      && after[|after| - 1].key == Key(path, mtime) && Some(after[|after| - 1].sf2) == Found(c, source, path, mtime)
  {
    if SlotOf(c.slots, Key(path, mtime)) == |c.slots| {
      var n := MissStores(c, source, path, mtime, capacity, maxBytes);
    }
  }

  // ---- agreement with parsing each time ----

  /** The slot holds what reading and parsing its path at its modification time gives. */
  ghost predicate SlotAgrees(s: Slot, source: Source) {
    forall p, m :: IsMtime(m) && s.key == Key(p, m) ==>
      source.read(p, m).Some? && source.parse(source.read(p, m).value) == Some(s.sf2) && |source.read(p, m).value| == s.bytes
  }

  ghost predicate Agrees(c: Cache, source: Source) { forall s :: s in c.slots ==> SlotAgrees(s, source) }

  lemma {:induction false} FreshAgrees(source: Source, path: string, mtime: string)
    requires IsMtime(mtime) && Uncached(source, path, mtime).Some?
    ensures SlotAgrees(Fresh(source, path, mtime), source)
  {
    forall p, m | IsMtime(m) && Key(path, mtime) == Key(p, m) ensures p == path && m == mtime {
      KeyInjective(path, mtime, p, m);
    }
  }

  /** A lookup returns what uncached parsing would, and the cache goes on agreeing. */
  lemma {:induction false} GetAgrees(c: Cache, source: Source, path: string, mtime: string, capacity: nat, maxBytes: int)
    requires Inv(c, capacity, maxBytes) && Agrees(c, source) && IsMtime(mtime)
    ensures Found(c, source, path, mtime) == Uncached(source, path, mtime)
    ensures Agrees(Get(c, source, path, mtime, capacity, maxBytes), source)
  {
    var i := SlotOf(c.slots, Key(path, mtime));
    if i < |c.slots| {
      assert SlotAgrees(c.slots[i], source);
    } else {
      OthersMembers(c.slots, path, false);
      hide Total, Within, Others, SlotAgrees, Matches, Evict;
      if Uncached(source, path, mtime).Some? {
        FreshAgrees(source, path, mtime);
        var n := MissStores(c, source, path, mtime, capacity, maxBytes);
      }
    }
  }

  // ---- one entry per path ----

  /** No path has two entries: a file that changed has lost its old one. */
  ghost predicate OnePerPath(c: Cache) {
    forall s, t, p, m, m' :: s in c.slots && t in c.slots && IsMtime(m) && IsMtime(m') && s.key == Key(p, m) && t.key == Key(p, m') ==> s == t
  }

  /** Dropping a path leaves none of its entries, and every entry of a path it does not match. */
  lemma {:induction false} DropForgets(c: Cache, path: string, exact: bool, s: Slot, m: string)
    ensures s.key == Key(path, m) ==> s !in Drop(c, path, exact).slots
    ensures !Matches(s.key, path, exact) ==> (s in Drop(c, path, exact).slots <==> s in c.slots)
  {
    OthersMembers(c.slots, path, exact);
    if s.key == Key(path, m) { KeyMatches(path, m, exact); }
  }

  lemma {:induction false} KeyMatches(path: string, m: string, exact: bool)
    ensures Matches(Key(path, m), path, exact)
  {
    assert Key(path, m).text[..|path| + 1] == path + ":";
  }

  lemma {:induction false} FewerKeepOne(c: Cache, after: Cache)
    requires OnePerPath(c) && forall s :: s in after.slots ==> s in c.slots
    ensures OnePerPath(after)
  {
  }

  lemma {:induction false} GetKeepsOne(c: Cache, source: Source, path: string, mtime: string, capacity: nat, maxBytes: int)
    requires Inv(c, capacity, maxBytes) && OnePerPath(c) && IsMtime(mtime)
    ensures OnePerPath(Get(c, source, path, mtime, capacity, maxBytes))
  {
    var after := Get(c, source, path, mtime, capacity, maxBytes);
    if SlotOf(c.slots, Key(path, mtime)) < |c.slots| {
      FewerKeepOne(c, after);
    } else {
      OthersMembers(c.slots, path, false);
      if Uncached(source, path, mtime).Some? {
        var n := MissStores(c, source, path, mtime, capacity, maxBytes);
        var stored := Others(c.slots, path, false) + [Fresh(source, path, mtime)];
        StoredHasOne(c, source, path, mtime);
        FewerKeepOne(c.(slots := stored), after);
      } else {
        FewerKeepOne(c, after);
      }
    }
  }

  lemma {:induction false} StoredHasOne(c: Cache, source: Source, path: string, mtime: string)
    requires OnePerPath(c) && IsMtime(mtime) && Uncached(source, path, mtime).Some?
    ensures OnePerPath(c.(slots := Others(c.slots, path, false) + [Fresh(source, path, mtime)]))
  {
    var kept, slot := Others(c.slots, path, false), Fresh(source, path, mtime);
    var stored := kept + [slot];
    OthersMembers(c.slots, path, false);
    hide Matches, Others, Key;
    forall s, t, p, m, m' | (s in stored && t in stored && IsMtime(m) && IsMtime(m') && s.key == Key(p, m) && t.key == Key(p, m'))
      ensures s == t
    {
      if s == slot || t == slot {
        KeyInjective(p, if s == slot then m else m', path, mtime);
        KeyMatches(path, m, false);
        KeyMatches(path, m', false);
      }
    }
  }

  // ---- order of use ----

  /** When the key was last used, as an index into the history of successful lookups; -1 for never. */
  function LastUse(history: seq<MapKey>, key: MapKey): (i: int)
    ensures -1 <= i < |history|
  {
    if history == [] then -1
    else if history[|history| - 1] == key then |history| - 1
    else LastUse(history[..|history| - 1], key)
  }

  /** Every slot was used, and those further back longer ago. */
  ghost predicate InOrderOfUse(slots: seq<Slot>, history: seq<MapKey>) {
    && (forall i :: 0 <= i < |slots| ==> LastUse(history, slots[i].key) >= 0)
    && (forall i, j :: 0 <= i < j < |slots| ==> LastUse(history, slots[i].key) < LastUse(history, slots[j].key))
  }

  lemma {:induction false} UseSnoc(history: seq<MapKey>, used: MapKey, key: MapKey)
    ensures LastUse(history + [used], key) == if used == key then |history| else LastUse(history, key)
  {
    assert (history + [used])[..|history|] == history;
  }

  lemma {:induction false} OthersInOrder(slots: seq<Slot>, history: seq<MapKey>, path: string, exact: bool)
    requires InOrderOfUse(slots, history)
    ensures InOrderOfUse(Others(slots, path, exact), history)
  {
    if slots != [] {
      var init, last := slots[..|slots| - 1], slots[|slots| - 1];
      assert InOrderOfUse(init, history) && UsedBefore(init, last, history);
      OthersInOrder(init, history, path, exact);
      OthersMembers(init, path, exact);
      var kept := Others(init, path, exact);
      hide Matches, LastUse;
      if !Matches(last.key, path, exact) {
        forall i | 0 <= i < |kept| ensures LastUse(history, kept[i].key) < LastUse(history, last.key) {
          assert kept[i] in init;
        }
        InOrderSnoc(kept, last, history);
      }
    }
  }

  ghost predicate UsedBefore(slots: seq<Slot>, slot: Slot, history: seq<MapKey>) {
    forall s :: s in slots ==> LastUse(history, s.key) < LastUse(history, slot.key)
  }

  lemma {:induction false} InOrderSnoc(slots: seq<Slot>, slot: Slot, history: seq<MapKey>)
    requires InOrderOfUse(slots, history) && LastUse(history, slot.key) >= 0
    requires forall i :: 0 <= i < |slots| ==> LastUse(history, slots[i].key) < LastUse(history, slot.key)
    ensures InOrderOfUse(slots + [slot], history)
  {
  }

  lemma {:induction false} WithoutInOrder(slots: seq<Slot>, history: seq<MapKey>, i: nat)
    requires InOrderOfUse(slots, history) && Distinct(slots) && i < |slots|
    ensures InOrderOfUse(RemoveAt(slots, i), history)
  {
    var rest := RemoveAt(slots, i);
    hide LastUse, RemoveAt;
    forall j | 0 <= j < |slots| - 1 ensures rest[j] == slots[if j < i then j else j + 1] { WithoutAt(slots, i, j); }
  }

  /** Using a key that none of `slots` has puts it last. */
  lemma {:induction false} UsedLast(slots: seq<Slot>, history: seq<MapKey>, slot: Slot)
    requires InOrderOfUse(slots, history) && forall i :: 0 <= i < |slots| ==> slots[i].key != slot.key
    ensures InOrderOfUse(slots + [slot], history + [slot.key])
  {
    UseSnoc(history, slot.key, slot.key);
    forall i | 0 <= i < |slots| ensures LastUse(history + [slot.key], slots[i].key) == LastUse(history, slots[i].key) {
      UseSnoc(history, slot.key, slots[i].key);
    }
  }

  /** Lookups keep the slots in order of use; so eviction, from the front, takes the least recently used. */
  lemma {:induction false} GetKeepsOrder(c: Cache, source: Source, path: string, mtime: string, capacity: nat, maxBytes: int,
                                         history: seq<MapKey>)
    requires Inv(c, capacity, maxBytes) && InOrderOfUse(c.slots, history)
    ensures var used := if Found(c, source, path, mtime).Some? then [Key(path, mtime)] else [];
      InOrderOfUse(Get(c, source, path, mtime, capacity, maxBytes).slots, history + used)
  {
    hide LastUse, Total, Matches;
    var i := SlotOf(c.slots, Key(path, mtime));
    if i < |c.slots| {
      WithoutInOrder(c.slots, history, i);
      DistinctWithout(c.slots, i);
      UsedLast(RemoveAt(c.slots, i), history, c.slots[i]);
    } else {
      OthersInOrder(c.slots, history, path, false);
      if Uncached(source, path, mtime).Some? {
        var n := MissStores(c, source, path, mtime, capacity, maxBytes);
        var kept, slot := Others(c.slots, path, false), Fresh(source, path, mtime);
        assert forall j :: 0 <= j < |kept| ==> (kept + [slot])[j].key == kept[j].key;
        UsedLast(kept, history, slot);
      } else {
        assert history + [] == history;
      }
    }
  }

  // ---- every run ----

  datatype Op = Lookup(path: string, mtime: string) | DoInvalidate(prefix: string) | DoClear

  datatype World = World(cache: Cache, history: seq<MapKey>)

  function Step(w: World, op: Op, source: Source, capacity: nat, maxBytes: int): World {
    match op
    case Lookup(path, mtime) =>
      World(Get(w.cache, source, path, mtime, capacity, maxBytes),
            w.history + if Found(w.cache, source, path, mtime).Some? then [Key(path, mtime)] else [])
    case DoInvalidate(prefix) => w.(cache := Drop(w.cache, prefix, true))
    case DoClear => w.(cache := Cache([], 0, 0))
  }

  function Run(ops: seq<Op>, source: Source, capacity: nat, maxBytes: int): World {
    if ops == [] then World(Cache([], 0, 0), [])
    else Step(Run(ops[..|ops| - 1], source, capacity, maxBytes), ops[|ops| - 1], source, capacity, maxBytes)
  }

  ghost predicate Sound(w: World, source: Source, capacity: nat, maxBytes: int) {
    && Inv(w.cache, capacity, maxBytes) && Agrees(w.cache, source) && InOrderOfUse(w.cache.slots, w.history)
    && OnePerPath(w.cache)
  }

  ghost predicate MtimesOk(ops: seq<Op>) { forall i :: 0 <= i < |ops| && ops[i].Lookup? ==> IsMtime(ops[i].mtime) }

  /**
   In every run: the byte counter is the sum of the entries, both budgets hold, the
   entries are in order of last use, one per path, and hold what uncached parsing
   gives. So a lookup after the run returns what uncached parsing would.
   */
  lemma {:induction false} RunIsSound(ops: seq<Op>, source: Source, capacity: nat, maxBytes: int, path: string, mtime: string)
    requires MtimesOk(ops) && IsMtime(mtime)
    ensures Sound(Run(ops, source, capacity, maxBytes), source, capacity, maxBytes)
    ensures Found(Run(ops, source, capacity, maxBytes).cache, source, path, mtime) == Uncached(source, path, mtime)
  {
    if ops != [] {
      var w, op := Run(ops[..|ops| - 1], source, capacity, maxBytes), ops[|ops| - 1];
      RunIsSound(ops[..|ops| - 1], source, capacity, maxBytes, path, mtime);
      StepIsSound(w, op, source, capacity, maxBytes);
    }
    GetAgrees(Run(ops, source, capacity, maxBytes).cache, source, path, mtime, capacity, maxBytes);
  }

  lemma {:induction false} StepIsSound(w: World, op: Op, source: Source, capacity: nat, maxBytes: int)
    requires Sound(w, source, capacity, maxBytes) && (op.Lookup? ==> IsMtime(op.mtime))
    ensures Sound(Step(w, op, source, capacity, maxBytes), source, capacity, maxBytes)
  {
    hide Total, LastUse, SlotAgrees, Matches;
    match op
    case Lookup(path, mtime) =>
      GetKeepsInv(w.cache, source, path, mtime, capacity, maxBytes);
      GetAgrees(w.cache, source, path, mtime, capacity, maxBytes);
      GetKeepsOrder(w.cache, source, path, mtime, capacity, maxBytes, w.history);
      GetKeepsOne(w.cache, source, path, mtime, capacity, maxBytes);
    case DoInvalidate(prefix) =>
      DropKeepsInv(w.cache, prefix, true, capacity, maxBytes);
      OthersKeepLess(w.cache.slots, prefix, true);
      OthersInOrder(w.cache.slots, w.history, prefix, true);
      FewerKeepOne(w.cache, Drop(w.cache, prefix, true));
    case DoClear =>
      assert Total([]) == 0 by { EmptyTotal(); }
  }

  lemma {:induction false} EmptyTotal()
    ensures Total([]) == 0
  {
  }

  // ---- told by the text of the keys ----

  /** The key is the path, a colon, and something; or, where that counts, the path alone. */
  predicate BelongsTo(text: string, path: string, exact: bool) {
    (|text| > |path| && text[..|path|] == path && text[|path|] == ':') || (exact && text == path)
  }

  /** Dropping a path takes exactly the slots whose key belongs to it, and keeps the others in their order. */
  lemma {:induction false} DropByText(c: Cache, path: string, exact: bool, i: nat)
    requires i < |c.slots|
    ensures c.slots[i] in Drop(c, path, exact).slots <==> !BelongsTo(c.slots[i].key.text, path, exact)
  {
    OthersMembers(c.slots, path, exact);
    MatchesByText(c.slots[i].key, path, exact);
  }

  lemma {:induction false} MatchesByText(key: MapKey, path: string, exact: bool)
    ensures Matches(key, path, exact) <==> BelongsTo(key.text, path, exact)
  {
    var t := key.text;
    if StartsWith(t, path + ":") {
      assert t[..|path| + 1] == path + ":" && t[..|path| + 1][|path|] == t[|path|];
      assert t[..|path|] == (path + ":")[..|path|];
    }
    if |t| > |path| && t[..|path|] == path && t[|path|] == ':' {
      assert t[..|path| + 1] == path + ":";
    }
  }

  /** The key of a file: its path, a colon, its modification time. */
  lemma {:induction false} KeyOfFile()
    ensures Key("/sf2/a:b.sf2", "17.5") == MapKey("/sf2/a:b.sf2:17.5")
  {
  }
}
