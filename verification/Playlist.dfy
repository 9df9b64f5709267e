/**
 Playlist items and their positions, as the database keeps them: rows changed by
 UPDATE and DELETE statements one after the other. The meaning of a playlist is
 the list of its items in position order.
 */
module Playlist {
  import opened Sequences
  import opened Wrappers

  datatype Row = Row(id: int, playlist: int, midi: int, position: int)

  ghost predicate UniqueIds(rows: seq<Row>) {
    forall i, j :: 0 <= i < j < |rows| ==> rows[i].id != rows[j].id
  }

  function IdOf(row: Row): int { row.id }

  /** Where the row with this id is, or the number of rows. */
  function RowOf(rows: seq<Row>, id: int): nat { IndexBy(rows, IdOf, id) }

  // ---- the statements ----

  function Positioned(rows: seq<Row>, position: Row -> int): (r: seq<Row>)
    ensures |r| == |rows| && forall k :: 0 <= k < |rows| ==> r[k] == rows[k].(position := position(rows[k]))
  {
    seq(|rows|, k requires 0 <= k < |rows| => rows[k].(position := position(rows[k])))
  }

  /** Positions of the playlist from `from` to before `to` go up by one. */
  function ShiftUp(rows: seq<Row>, playlist: int, from: int, to: int): seq<Row> {
    Positioned(rows, (r: Row) => if r.playlist == playlist && from <= r.position < to then r.position + 1 else r.position)
  }

  /** Positions of the playlist above `above`, up to `upTo` if given, go down by one. */
  function ShiftDown(rows: seq<Row>, playlist: int, above: int, upTo: Option<int>): seq<Row> {
    Positioned(rows, (r: Row) =>
      if r.playlist == playlist && above < r.position && (upTo.Some? ==> r.position <= upTo.value) then r.position - 1 else r.position)
  }

  function SetPosition(rows: seq<Row>, id: int, position: int): seq<Row> {
    Positioned(rows, (r: Row) => if r.id == id then position else r.position)
  }

  /** The largest position in the playlist, if it has items. */
  function MaxPosition(rows: seq<Row>, playlist: int): (m: Option<int>)
    ensures m.None? ==> forall k :: 0 <= k < |rows| ==> rows[k].playlist != playlist
    ensures m.Some? ==> exists k :: 0 <= k < |rows| && rows[k].playlist == playlist && rows[k].position == m.value
    ensures m.Some? ==> forall k :: 0 <= k < |rows| && rows[k].playlist == playlist ==> rows[k].position <= m.value
  {
    if rows == [] then None else
      var m, r := MaxPosition(rows[..|rows| - 1], playlist), rows[|rows| - 1];
      if r.playlist == playlist && (m.None? || r.position > m.value) then Some(r.position) else m
  }

  // ---- the operations ----

  function NextPosition(rows: seq<Row>, playlist: int): int {
    var m := MaxPosition(rows, playlist);
    (if m.Some? then m.value else -1) + 1
  }

  function Removed(rows: seq<Row>, id: int): seq<Row> {
    var k := RowOf(rows, id);
    if k == |rows| then rows else ShiftDown(rows[..k] + rows[k + 1..], rows[k].playlist, rows[k].position, None)
  }

  /** Does the playlist have this item? */
  predicate HasItem(rows: seq<Row>, playlist: int, id: int) {
    var k := RowOf(rows, id);
    k < |rows| && rows[k].playlist == playlist
  }

  function PositionOf(rows: seq<Row>, id: int): int
    requires RowOf(rows, id) < |rows|
  {
    rows[RowOf(rows, id)].position
  }

  function Reordered(rows: seq<Row>, playlist: int, id: int, newPosition: int): seq<Row>
    requires HasItem(rows, playlist, id)
  {
    var from := PositionOf(rows, id);
    if newPosition == from then rows else
      var shifted := if newPosition < from then ShiftUp(rows, playlist, newPosition, from)
                     else ShiftDown(rows, playlist, from, Some(newPosition));
      SetPosition(shifted, id, newPosition)
  }

  class PlaylistItems {
    var rows: seq<Row>

    constructor ()
      ensures rows == []
    {
      rows := [];
    }

    /** `id` is the key the database picks for the new row. */
    method AddPlaylistItem(playlist: int, midi: int, position: Option<int>, id: int)
      requires UniqueIds(rows) && forall k :: 0 <= k < |rows| ==> rows[k].id != id
      modifies this
      ensures UniqueIds(rows)
      ensures rows == old(rows) + [Row(id, playlist, midi, if position.Some? then position.value else NextPosition(old(rows), playlist))]
    {
      var at := -1;
      if position.Some? {
        at := position.value;
      } else {
        var max: Option<int> := None;
        for k := 0 to |rows|
          invariant max == MaxPosition(rows[..k], playlist)
        {
          assert rows[..k + 1][..k] == rows[..k];
          if rows[k].playlist == playlist && (max.None? || rows[k].position > max.value) { max := Some(rows[k].position); }
        }
        assert rows[..|rows|] == rows;
        at := (if max.Some? then max.value else -1) + 1;
      }
      rows := rows + [Row(id, playlist, midi, at)];
    }

    /** Looks an item up by its key. */
    method Find(id: int) returns (k: nat)
      ensures k == RowOf(rows, id)
    {
      k := 0;
      while k < |rows| && rows[k].id != id
        invariant k <= |rows| && forall j :: 0 <= j < k ==> rows[j].id != id
      {
        k := k + 1;
      }
    }

    method RemovePlaylistItem(id: int)
      requires UniqueIds(rows)
      modifies this
      ensures UniqueIds(rows) && rows == Removed(old(rows), id)
    {
      var k := Find(id);
      if k == |rows| { return; }
      var item := rows[k];
      rows := rows[..k] + rows[k + 1..];
      rows := ShiftDown(rows, item.playlist, item.position, None);
    }

    /** Reports an item that is not in the playlist, and then changes nothing. */
    method ReorderPlaylistItem(playlist: int, id: int, newPosition: int) returns (found: bool)
      requires UniqueIds(rows)
      modifies this
      ensures UniqueIds(rows) && found == HasItem(old(rows), playlist, id)
      ensures rows == if found then Reordered(old(rows), playlist, id, newPosition) else old(rows)
    {
      var k := Find(id);
      if k == |rows| || rows[k].playlist != playlist { return false; }
      found := true;
      var oldPosition := rows[k].position;
      if oldPosition == newPosition { return; }
      if newPosition < oldPosition {
        rows := ShiftUp(rows, playlist, newPosition, oldPosition);
      } else {
        rows := ShiftDown(rows, playlist, oldPosition, Some(newPosition));
      }
      rows := SetPosition(rows, id, newPosition);
    }
  }

  // ---- what the rows mean ----

  predicate Occupied(rows: seq<Row>, playlist: int, i: int) {
    exists k :: 0 <= k < |rows| && rows[k].playlist == playlist && rows[k].position == i
  }

  /** The playlist's items are `list`, in position order: the positions are exactly 0 to |list| - 1, each taken once. */
  ghost predicate Represents(rows: seq<Row>, playlist: int, list: seq<int>) {
    && (forall k :: 0 <= k < |rows| && rows[k].playlist == playlist ==>
          0 <= rows[k].position < |list| && list[rows[k].position] == rows[k].id)
    && forall i :: 0 <= i < |list| ==> Occupied(rows, playlist, i)
  }

  lemma {:induction false} Occupant(rows: seq<Row>, playlist: int, i: int) returns (k: nat)
    requires Occupied(rows, playlist, i)
    ensures k < |rows| && rows[k].playlist == playlist && rows[k].position == i
  {
    k :| k < |rows| && rows[k].playlist == playlist && rows[k].position == i;
  }

  /** Rows mean at most one list, and no item stands in it twice. */
  lemma {:induction false} RepresentsOne(rows: seq<Row>, playlist: int, a: seq<int>, b: seq<int>)
    requires UniqueIds(rows) && Represents(rows, playlist, a) && Represents(rows, playlist, b)
    ensures a == b
    ensures forall i, j :: 0 <= i < j < |a| ==> a[i] != a[j]
  {
    ListsAgree(rows, playlist, a, b);
    ListsAgree(rows, playlist, b, a);
    forall i, j | 0 <= i < j < |a| ensures a[i] != a[j] {
      var _ := Occupant(rows, playlist, i);
      var _ := Occupant(rows, playlist, j);
    }
  }

  lemma {:induction false} ListsAgree(rows: seq<Row>, playlist: int, a: seq<int>, b: seq<int>)
    requires Represents(rows, playlist, a) && Represents(rows, playlist, b)
    ensures |a| <= |b| && forall i :: 0 <= i < |a| ==> a[i] == b[i]
  {
    if a != [] { var _ := Occupant(rows, playlist, |a| - 1); }
    forall i | 0 <= i < |a| ensures a[i] == b[i] {
      var _ := Occupant(rows, playlist, i);
    }
  }

  /** The item at `from` taken out of the list and put back in at `to`. */
  function Moved(list: seq<int>, from: nat, to: nat): (r: seq<int>)
    requires from < |list| && to < |list|
  {
    var rest := list[..from] + list[from + 1..];
    rest[..to] + [list[from]] + rest[to..]
  }

  /** Where the item at position `p` goes when one moves. */
  function Shifted(p: int, from: int, to: int): int {
    if p == from then to
    else if to <= p < from then p + 1
    else if from < p <= to then p - 1
    else p
  }

  lemma {:induction false} MovedAt(list: seq<int>, from: nat, to: nat, p: nat)
    requires from < |list| && to < |list| && p < |list|
    ensures 0 <= Shifted(p, from, to) < |list| == |Moved(list, from, to)|
    ensures Moved(list, from, to)[Shifted(p, from, to)] == list[p]
    ensures Shifted(Shifted(p, to, from), from, to) == p
  {
  }

  // ---- refinement, operation by operation ----

  /** Without a position an item is appended; with one, it is so exactly when the position is the next one. */
  lemma {:induction false} AddAppends(rows: seq<Row>, playlist: int, midi: int, position: int, id: int, list: seq<int>)
    requires UniqueIds(rows) && Represents(rows, playlist, list)
    requires forall k :: 0 <= k < |rows| ==> rows[k].id != id
    ensures NextPosition(rows, playlist) == |list|
    ensures var after := rows + [Row(id, playlist, midi, position)];
      && (position == |list| ==> Represents(after, playlist, list + [id]))
      && (position != |list| ==> forall l :: !Represents(after, playlist, l))
  {
    AppendPosition(rows, playlist, list);
    var after := rows + [Row(id, playlist, midi, position)];
    assert forall k :: 0 <= k < |rows| ==> after[k] == rows[k];
    forall i | 0 <= i < |list| ensures Occupied(after, playlist, i) {
      var k := Occupant(rows, playlist, i);
      assert after[k] == rows[k];
    }
    if position == |list| {
      assert after[|rows|].position == |list|;
    }
    forall l | Represents(after, playlist, l) ensures position == |list| {
      AddOnlyAtEnd(rows, playlist, midi, position, id, list, l);
    }
  }

  lemma {:induction false} AddOnlyAtEnd(rows: seq<Row>, playlist: int, midi: int, position: int, id: int, list: seq<int>, l: seq<int>)
    requires Represents(rows, playlist, list) && forall k :: 0 <= k < |rows| ==> rows[k].id != id
    requires Represents(rows + [Row(id, playlist, midi, position)], playlist, l)
    ensures position == |list|
  {
    var after := rows + [Row(id, playlist, midi, position)];
    assert after[|rows|].position == position;
    assert forall k :: 0 <= k < |rows| ==> after[k] == rows[k];
    if position < |list| {
      var _ := Occupant(rows, playlist, position);
    } else if position > |list| {
      var _ := Occupant(after, playlist, |list|);
    }
  }

  lemma {:induction false} AppendPosition(rows: seq<Row>, playlist: int, list: seq<int>)
    requires Represents(rows, playlist, list)
    ensures NextPosition(rows, playlist) == |list|
  {
    if list != [] { var _ := Occupant(rows, playlist, |list| - 1); }
  }

  /** Where row `j` of the rows after a removal was before. */
  function Before(k: nat, j: nat): nat { if j < k then j else j + 1 }

  /** The row as a removal leaves it: behind the gap in its playlist, one position less. */
  function Closed(row: Row, gone: Row): Row {
    if row.playlist == gone.playlist && gone.position < row.position then row.(position := row.position - 1) else row
  }

  lemma {:induction false} RemovedRow(rows: seq<Row>, id: int, j: nat)
    requires RowOf(rows, id) < |rows|
    ensures rows[RowOf(rows, id)].id == id && |Removed(rows, id)| == |rows| - 1
    ensures j < |rows| - 1 ==> Removed(rows, id)[j] == Closed(rows[Before(RowOf(rows, id), j)], rows[RowOf(rows, id)])
  {
    var k := RowOf(rows, id);
    var rest := rows[..k] + rows[k + 1..];
    assert rows[k].id == id && Removed(rows, id) == ShiftDown(rest, rows[k].playlist, rows[k].position, None);
    hide RowOf, Removed;
    if j < |rows| - 1 { assert rest[j] == rows[Before(k, j)]; }
  }

  /** The row stands where `list` without its item at `p` has it. */
  predicate PlacedWithout(row: Row, list: seq<int>, p: int) {
    0 <= row.position < |list| - 1 && list[if row.position < p then row.position else row.position + 1] == row.id
  }

  lemma {:induction false} RemovedItem(rows: seq<Row>, id: int, list: seq<int>, j: nat)
    requires UniqueIds(rows) && RowOf(rows, id) < |rows| && j < |Removed(rows, id)|
    requires var playlist := rows[RowOf(rows, id)].playlist;
      Represents(rows, playlist, list) && Removed(rows, id)[j].playlist == playlist
    ensures PlacedWithout(Removed(rows, id)[j], list, PositionOf(rows, id))
  {
    RemovedRow(rows, id, j);
    var k := RowOf(rows, id);
    var was := Before(k, j);
    hide Removed, RowOf;
    assert rows[was].id != rows[k].id;
    assert list[rows[was].position] == rows[was].id;
  }

  lemma {:induction false} RemovedOccupies(rows: seq<Row>, id: int, list: seq<int>, i: nat)
    requires RowOf(rows, id) < |rows| && i < |list| - 1 && Represents(rows, rows[RowOf(rows, id)].playlist, list)
    ensures Occupied(Removed(rows, id), rows[RowOf(rows, id)].playlist, i)
  {
    var k := RowOf(rows, id);
    var was := Occupant(rows, rows[k].playlist, if i < rows[k].position then i else i + 1);
    var j: nat := if was < k then was else was - 1;
    RemovedRow(rows, id, 0);
    hide Removed, RowOf, Represents;
    assert was != k && Before(k, j) == was;
    RemovedRow(rows, id, j);
    assert Removed(rows, id)[j].position == i;
  }

  lemma {:induction false} ItemAtPosition(rows: seq<Row>, id: int, list: seq<int>)
    requires RowOf(rows, id) < |rows| && Represents(rows, rows[RowOf(rows, id)].playlist, list)
    ensures 0 <= PositionOf(rows, id) < |list| && list[PositionOf(rows, id)] == id
  {
    RemovedRow(rows, id, 0);
  }

  lemma {:induction false} RemoveTakesOut(rows: seq<Row>, id: int, list: seq<int>)
    requires UniqueIds(rows) && RowOf(rows, id) < |rows|
    requires Represents(rows, rows[RowOf(rows, id)].playlist, list)
    ensures var p, playlist := PositionOf(rows, id), rows[RowOf(rows, id)].playlist;
      0 <= p < |list| && list[p] == id && Represents(Removed(rows, id), playlist, list[..p] + list[p + 1..])
  {
    var p, playlist, after := PositionOf(rows, id), rows[RowOf(rows, id)].playlist, Removed(rows, id);
    ItemAtPosition(rows, id, list);
    hide *;
    forall j | 0 <= j < |after| && after[j].playlist == playlist
      ensures PlacedWithout(after[j], list, p)
    {
      RemovedItem(rows, id, list, j);
    }
    forall i | 0 <= i < |list| - 1 ensures Occupied(after, playlist, i) { RemovedOccupies(rows, id, list, i); }
    RepresentsCut(after, playlist, list, p);
  }

  lemma {:induction false} RepresentsCut(rows: seq<Row>, playlist: int, list: seq<int>, p: nat)
    requires p < |list| && forall i :: 0 <= i < |list| - 1 ==> Occupied(rows, playlist, i)
    requires forall j :: 0 <= j < |rows| && rows[j].playlist == playlist ==> PlacedWithout(rows[j], list, p)
    ensures Represents(rows, playlist, list[..p] + list[p + 1..])
  {
  }

  /** The two shift-then-set branches move the item, when the new position exists. */
  lemma {:induction false} ReorderMoves(rows: seq<Row>, playlist: int, id: int, to: int, list: seq<int>)
    requires UniqueIds(rows) && HasItem(rows, playlist, id) && Represents(rows, playlist, list)
    requires 0 <= to < |list|
    ensures 0 <= PositionOf(rows, id) < |list|
    ensures Represents(Reordered(rows, playlist, id, to), playlist, Moved(list, PositionOf(rows, id), to))
  {
    var from, after := PositionOf(rows, id), Reordered(rows, playlist, id, to);
    var moved := Moved(list, from, to);
    ReorderedRows(rows, playlist, id, to, list);
    forall k | 0 <= k < |after| && after[k].playlist == playlist
      ensures 0 <= after[k].position < |moved| && moved[after[k].position] == after[k].id
    {
      MovedAt(list, from, to, rows[k].position);
    }
    forall i | 0 <= i < |moved| ensures Occupied(after, playlist, i) {
      MovedAt(list, from, to, i);
      MovedAt(list, to, from, i);
      var k := Occupant(rows, playlist, Shifted(i, to, from));
      assert after[k].position == i;
    }
  }

  /** Every row of the playlist ends where the move takes it; the others are as before. */
  lemma {:induction false} ReorderedRows(rows: seq<Row>, playlist: int, id: int, to: int, list: seq<int>)
    requires UniqueIds(rows) && HasItem(rows, playlist, id) && Represents(rows, playlist, list)
    ensures var after, from := Reordered(rows, playlist, id, to), PositionOf(rows, id);
      && |after| == |rows|
      && forall k :: 0 <= k < |rows| ==>
           after[k] == rows[k].(position := if rows[k].playlist == playlist then Shifted(rows[k].position, from, to) else rows[k].position)
  {
    var at := RowOf(rows, id);
    forall k | 0 <= k < |rows| && rows[k].playlist == playlist
      ensures rows[k].id == id <==> rows[k].position == rows[at].position
    {
    }
  }

  /** A reorder leaves the positions a permutation exactly when the new position is one of theirs. */
  lemma {:induction false} ReorderExactly(rows: seq<Row>, playlist: int, id: int, to: int, list: seq<int>)
    requires UniqueIds(rows) && HasItem(rows, playlist, id) && Represents(rows, playlist, list)
    ensures (exists l :: Represents(Reordered(rows, playlist, id, to), playlist, l)) <==> 0 <= to < |list|
  {
    var after := Reordered(rows, playlist, id, to);
    if 0 <= to < |list| {
      ReorderMoves(rows, playlist, id, to, list);
    }
    forall l | Represents(after, playlist, l) ensures 0 <= to < |list| {
      ReorderOnlyInside(rows, playlist, id, to, list, l);
    }
  }

  lemma {:induction false} ReorderOnlyInside(rows: seq<Row>, playlist: int, id: int, to: int, list: seq<int>, l: seq<int>)
    requires UniqueIds(rows) && HasItem(rows, playlist, id) && Represents(rows, playlist, list)
    requires Represents(Reordered(rows, playlist, id, to), playlist, l)
    ensures 0 <= to < |list|
  {
    var after, at := Reordered(rows, playlist, id, to), RowOf(rows, id);
    ReorderedRows(rows, playlist, id, to, list);
    assert after[at].position == to < |l|;
    if to >= |list| {
      var _ := Occupant(after, playlist, |list| - 1);
    }
  }

  // ---- every sequence of operations ----

  datatype Op = Append(playlist: int, midi: int, id: int) | Remove(id: int) | Reorder(playlist: int, id: int, to: int)

  type Lists = map<int, seq<int>>

  function ListOf(lists: Lists, playlist: int): seq<int> { if playlist in lists then lists[playlist] else [] }

  /** The rows hold every playlist as the abstract lists have it. */
  ghost predicate Refines(rows: seq<Row>, lists: Lists) {
    UniqueIds(rows) && forall p :: Represents(rows, p, ListOf(lists, p))
  }

  function Step(rows: seq<Row>, op: Op): seq<Row> {
    match op
    case Append(p, midi, id) => rows + [Row(id, p, midi, NextPosition(rows, p))]
    case Remove(id) => Removed(rows, id)
    case Reorder(p, id, to) => if HasItem(rows, p, id) then Reordered(rows, p, id, to) else rows
  }

  /** Where the item is in the list, or the length. */
  function PlaceOf(list: seq<int>, id: int): nat { IndexBy(list, Itself, id) }

  function Itself(id: int): int { id }

  function Without(list: seq<int>, id: int): seq<int> {
    var i := PlaceOf(list, id);
    if i < |list| then list[..i] + list[i + 1..] else list
  }

  function MoveItem(list: seq<int>, id: int, to: int): seq<int> {
    var i := PlaceOf(list, id);
    if i < |list| && 0 <= to < |list| then Moved(list, i, to) else list
  }

  /** The same operations on lists: append, take out, move. */
  function ListStep(lists: Lists, op: Op): Lists {
    match op
    case Append(p, _, id) => lists[p := ListOf(lists, p) + [id]]
    case Remove(id) => map p | p in lists :: Without(lists[p], id)
    case Reorder(p, id, to) => lists[p := MoveItem(ListOf(lists, p), id, to)]
  }

  /** Fresh keys for new rows, and reorders to a position the playlist has. */
  ghost predicate InRange(rows: seq<Row>, lists: Lists, op: Op) {
    match op
    case Append(_, _, id) => forall k :: 0 <= k < |rows| ==> rows[k].id != id
    case Remove(_) => true
    case Reorder(p, id, to) => HasItem(rows, p, id) ==> 0 <= to < |ListOf(lists, p)|
  }

  /** A playlist whose rows all stay, and which gets no others, means the same. */
  lemma {:induction false} OthersUntouched(rows: seq<Row>, after: seq<Row>, q: int, list: seq<int>)
    requires Represents(rows, q, list)
    requires forall k :: 0 <= k < |after| && after[k].playlist == q ==> after[k] in rows
    requires forall k :: 0 <= k < |rows| && rows[k].playlist == q ==> rows[k] in after
    ensures Represents(after, q, list)
  {
    forall i | 0 <= i < |list| ensures Occupied(after, q, i) {
      var k := Occupant(rows, q, i);
      assert rows[k] in after;
    }
  }

  /** An item stands in the list of its own playlist only, at its position. */
  lemma {:induction false} PlaceIsPosition(rows: seq<Row>, p: int, list: seq<int>, id: int)
    requires UniqueIds(rows) && Represents(rows, p, list)
    ensures HasItem(rows, p, id) ==> PlaceOf(list, id) == PositionOf(rows, id)
    ensures !HasItem(rows, p, id) ==> PlaceOf(list, id) == |list|
  {
    RepresentsOne(rows, p, list, list);
    if PlaceOf(list, id) < |list| {
      var k := Occupant(rows, p, PlaceOf(list, id));
      assert rows[k].id == id;
    }
  }

  lemma {:induction false} RemoveStep(rows: seq<Row>, id: int, q: int, list: seq<int>)
    requires UniqueIds(rows) && Represents(rows, q, list)
    ensures UniqueIds(Removed(rows, id)) && Represents(Removed(rows, id), q, Without(list, id))
  {
    PlaceIsPosition(rows, q, list, id);
    var k, after := RowOf(rows, id), Removed(rows, id);
    if k < |rows| {
      var rest := rows[..k] + rows[k + 1..];
      assert forall j :: 0 <= j < |rest| ==> rest[j] == rows[if j < k then j else j + 1];
      if rows[k].playlist == q {
        RemoveTakesOut(rows, id, list);
      } else {
        forall j | 0 <= j < |rows| && rows[j].playlist == q ensures rows[j] in after {
          assert after[if j < k then j else j - 1] == rows[j];
        }
        OthersUntouched(rows, after, q, list);
      }
    }
  }

  lemma {:induction false} ReorderStep(rows: seq<Row>, p: int, id: int, to: int, list: seq<int>, q: int, other: seq<int>)
    requires UniqueIds(rows) && HasItem(rows, p, id) && Represents(rows, p, list) && Represents(rows, q, other) && 0 <= to < |list|
    ensures UniqueIds(Reordered(rows, p, id, to))
    ensures Represents(Reordered(rows, p, id, to), p, MoveItem(list, id, to))
    ensures q != p ==> Represents(Reordered(rows, p, id, to), q, other)
  {
    PlaceIsPosition(rows, p, list, id);
    ReorderMoves(rows, p, id, to, list);
    ReorderedRows(rows, p, id, to, list);
    if q != p {
      var after := Reordered(rows, p, id, to);
      forall j | 0 <= j < |rows| && rows[j].playlist == q ensures rows[j] in after { assert after[j] == rows[j]; }
      OthersUntouched(rows, after, q, other);
    }
  }

  lemma {:induction false} AppendStep(rows: seq<Row>, p: int, midi: int, id: int, list: seq<int>, q: int, other: seq<int>)
    requires UniqueIds(rows) && (forall k :: 0 <= k < |rows| ==> rows[k].id != id)
    requires Represents(rows, p, list) && Represents(rows, q, other)
    ensures var after := rows + [Row(id, p, midi, NextPosition(rows, p))];
      UniqueIds(after) && Represents(after, p, list + [id]) && (q != p ==> Represents(after, q, other))
  {
    AddAppends(rows, p, midi, NextPosition(rows, p), id, list);
    if q != p { OthersUntouched(rows, rows + [Row(id, p, midi, NextPosition(rows, p))], q, other); }
  }

  lemma {:induction false} StepRefines(rows: seq<Row>, lists: Lists, op: Op)
    requires Refines(rows, lists) && InRange(rows, lists, op)
    ensures Refines(Step(rows, op), ListStep(lists, op))
  {
    forall q ensures UniqueIds(Step(rows, op)) && Represents(Step(rows, op), q, ListOf(ListStep(lists, op), q)) {
      StepRefinesOne(rows, lists, op, q);
    }
  }

  lemma {:induction false} StepRefinesOne(rows: seq<Row>, lists: Lists, op: Op, q: int)
    requires Refines(rows, lists) && InRange(rows, lists, op)
    ensures UniqueIds(Step(rows, op)) && Represents(Step(rows, op), q, ListOf(ListStep(lists, op), q))
  {
    match op
    case Append(p, midi, id) =>
      AppendStep(rows, p, midi, id, ListOf(lists, p), q, ListOf(lists, q));
    case Remove(id) =>
      assert Without([], id) == [];
      assert ListOf(ListStep(lists, op), q) == Without(ListOf(lists, q), id);
      hide Represents, UniqueIds, Removed, Without;
      RemoveStep(rows, id, q, ListOf(lists, q));
    case Reorder(p, id, to) =>
      if HasItem(rows, p, id) {
        ReorderStep(rows, p, id, to, ListOf(lists, p), q, ListOf(lists, q));
      } else {
        assert Represents(rows, p, ListOf(lists, p)) && Represents(rows, q, ListOf(lists, q));
        PlaceIsPosition(rows, p, ListOf(lists, p), id);
        assert MoveItem(ListOf(lists, p), id, to) == ListOf(lists, p);
      }
  }

  function Run(ops: seq<Op>): seq<Row> { if ops == [] then [] else Step(Run(ops[..|ops| - 1]), ops[|ops| - 1]) }

  function ListRun(ops: seq<Op>): Lists { if ops == [] then map[] else ListStep(ListRun(ops[..|ops| - 1]), ops[|ops| - 1]) }

  ghost predicate RunInRange(ops: seq<Op>) {
    ops == [] || (RunInRange(ops[..|ops| - 1]) && InRange(Run(ops[..|ops| - 1]), ListRun(ops[..|ops| - 1]), ops[|ops| - 1]))
  }

  /** After any run of appends, removals and in-range reorders, every playlist is the list the same run makes of it. */
  lemma {:induction false} RunRefines(ops: seq<Op>)
    requires RunInRange(ops)
    ensures Refines(Run(ops), ListRun(ops))
  {
    if ops != [] {
      RunRefines(ops[..|ops| - 1]);
      StepRefines(Run(ops[..|ops| - 1]), ListRun(ops[..|ops| - 1]), ops[|ops| - 1]);
    }
  }

  /** A single item moved to position 5: no list has it there. */
  lemma {:induction false} ReorderOutsideBreaks(midi: int)
    ensures var rows := [Row(1, 7, midi, 0)];
      && Represents(rows, 7, [1]) && HasItem(rows, 7, 1)
      && Reordered(rows, 7, 1, 5) == [Row(1, 7, midi, 5)] && forall l :: !Represents(Reordered(rows, 7, 1, 5), 7, l)
  {
    var rows := [Row(1, 7, midi, 0)];
    assert rows[0].position == 0 && rows[0].playlist == 7;
    assert Occupied(rows, 7, 0);
    ReorderExactly(rows, 7, 1, 5, [1]);
  }
}
