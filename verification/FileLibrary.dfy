/**
 The file library: rows in the database, and blobs on disk named by the hash of
 their content. Each operation changes both in steps that can fail, and cleans up
 as far as the program does.
 */
module FileLibrary {
  import opened Sequences

  datatype Hash = Hash(hex: string)
  datatype Path = Path(text: string)
  datatype Blob = Blob(bytes: seq<int>)
  datatype Row = Row(id: int, hash: Hash, path: Path)

  type Disk = map<Path, Blob>

  const MAX_MIDI_FILE_SIZE := 10 * 1024 * 1024

  /** The rows, the blobs on disk, and the next row id. */
  datatype Library = Library(rows: seq<Row>, disk: Disk, nextId: int)

  /** Where an operation fails, if it does; only uploads refuse complex and invalid files. */
  datatype Fault = NoFault | AtWrite | AtParse | TooComplex | AtAnalysis | Invalid | AtPersist

  datatype Outcome = Created(id: int) | Duplicate(id: int) | Done | Refused
  datatype Result = Result(lib: Library, outcome: Outcome)

  /** The directory is named by the first two digits. */
  function PathFor(h: Hash): Path {
    Path("midi/" + (if |h.hex| < 2 then h.hex else h.hex[..2]) + "/" + h.hex + ".mid")
  }

  /** A path tells its hash. */
  lemma {:induction false} PathInjective(a: Hash, b: Hash)
    requires PathFor(a) == PathFor(b)
    ensures a == b
  {
    var p, q := PathFor(a).text, PathFor(b).text;
    assert |a.hex| == |b.hex|;
    assert a.hex == p[|p| - 4 - |a.hex|..|p| - 4];
    assert b.hex == q[|q| - 4 - |b.hex|..|q| - 4];
  }

  // ---- the operations on values ----

  function HashOf(row: Row): Hash { row.hash }

  function IdOf(row: Row): int { row.id }

  /** The row with this hash, or the number of rows. */
  function FindHash(rows: seq<Row>, h: Hash): nat { IndexBy(rows, HashOf, h) }

  function FindId(rows: seq<Row>, id: int): nat { IndexBy(rows, IdOf, id) }

  /** Writing is idempotent: a blob that is there stays. */
  function Written(disk: Disk, path: Path, blob: Blob): Disk { if path in disk then disk else disk[path := blob] }

  function Unlinked(disk: Disk, path: Path, unlinks: bool): Disk { if unlinks then disk - {path} else disk }

  function Upload(lib: Library, hash: Blob -> Hash, blob: Blob, fault: Fault, unlinks: bool): Result {
    var h := hash(blob);
    var path := PathFor(h);
    if |blob.bytes| > MAX_MIDI_FILE_SIZE || (fault == AtWrite && path !in lib.disk) then Result(lib, Refused)
    else
      var disk, k := Written(lib.disk, path, blob), FindHash(lib.rows, h);
      if k < |lib.rows| then Result(lib.(disk := disk), Duplicate(lib.rows[k].id))
      else if fault == NoFault || fault == AtWrite
      then Result(Library(lib.rows + [Row(lib.nextId, h, path)], disk, lib.nextId + 1), Created(lib.nextId))
      else Result(lib.(disk := Unlinked(disk, path, unlinks)), Refused)
  }

  function Derive(lib: Library, hash: Blob -> Hash, blob: Blob, fault: Fault, unlinks: bool): Result {
    var h := hash(blob);
    var path := PathFor(h);
    if |blob.bytes| > MAX_MIDI_FILE_SIZE || (fault == AtWrite && path !in lib.disk) then Result(lib, Refused)
    else
      var disk, k := Written(lib.disk, path, blob), FindHash(lib.rows, h);
      if k < |lib.rows| then Result(lib.(disk := disk), Duplicate(lib.rows[k].id))
      else if fault == AtParse || fault == AtAnalysis then Result(lib.(disk := disk), Refused)
      else if fault == AtPersist then Result(lib.(disk := Unlinked(disk, path, unlinks)), Refused)
      else Result(Library(lib.rows + [Row(lib.nextId, h, path)], disk, lib.nextId + 1), Created(lib.nextId))
  }

  predicate FailsLate(fault: Fault) { fault == AtParse || fault == AtAnalysis || fault == AtPersist }

  /** Puts other bytes under a row; `cleans` when a late failure takes the new blob back. */
  function Rewrite(lib: Library, hash: Blob -> Hash, id: int, blob: Blob, fault: Fault, unlinks: bool, cleans: bool): Result {
    var h, k := hash(blob), FindId(lib.rows, id);
    var path := PathFor(h);
    if k == |lib.rows| || (fault == AtWrite && path !in lib.disk) then Result(lib, Refused)
    else
      var row, disk, isNew := lib.rows[k], Written(lib.disk, path, blob), path !in lib.disk;
      if h != row.hash && FindHash(lib.rows, h) < |lib.rows|
      then Result(lib.(disk := if isNew then Unlinked(disk, path, unlinks) else disk), Refused)
      else if FailsLate(fault)
      then Result(lib.(disk := if cleans && isNew && path != row.path then Unlinked(disk, path, unlinks) else disk), Refused)
      else Result(lib.(rows := lib.rows[k := Row(id, h, path)],
                       disk := if row.path != path then Unlinked(disk, row.path, unlinks) else disk), Done)
  }

  function Save(lib: Library, hash: Blob -> Hash, id: int, blob: Blob, fault: Fault, unlinks: bool): Result {
    if |blob.bytes| > MAX_MIDI_FILE_SIZE then Result(lib, Refused) else Rewrite(lib, hash, id, blob, fault, unlinks, true)
  }

  function Replace(lib: Library, hash: Blob -> Hash, id: int, blob: Blob, fault: Fault, unlinks: bool): Result {
    if |blob.bytes| > MAX_MIDI_FILE_SIZE then Result(lib, Refused) else Rewrite(lib, hash, id, blob, fault, unlinks, false)
  }

  function Delete(lib: Library, id: int, unlinks: bool): Result {
    var k := FindId(lib.rows, id);
    if id <= 0 || k == |lib.rows| then Result(lib, Refused)
    else Result(lib.(rows := lib.rows[..k] + lib.rows[k + 1..], disk := Unlinked(lib.disk, lib.rows[k].path, unlinks)), Done)
  }

  function Referenced(rows: seq<Row>): set<Path> { set k | 0 <= k < |rows| :: rows[k].path }

  /** Removes what no row refers to, except what cannot be unlinked; does nothing when no row refers to anything. */
  function Collect(lib: Library, stuck: set<Path>): Library {
    var kept := Referenced(lib.rows);
    if kept == {} then lib else lib.(disk := map p | p in lib.disk && (p in kept || p in stuck) :: lib.disk[p])
  }

  // ---- the file manager ----

  class FileManager {
    const hash: Blob -> Hash
    var rows: seq<Row>
    var nextId: int
    var disk: Disk

    ghost function Now(): Library
      reads this
    {
      Library(rows, disk, nextId)
    }

    constructor (hash: Blob -> Hash)
      ensures Now() == Library([], map[], 1) && this.hash == hash
    {
      this.hash, rows, disk, nextId := hash, [], map[], 1;
    }

    method LookUpHash(h: Hash) returns (k: nat)
      ensures k == FindHash(rows, h)
    {
      k := 0;
      while k < |rows| && rows[k].hash != h
        invariant k <= |rows| && forall j :: 0 <= j < k ==> rows[j].hash != h
      {
        k := k + 1;
      }
    }

    method LookUpId(id: int) returns (k: nat)
      ensures k == FindId(rows, id)
    {
      k := 0;
      while k < |rows| && rows[k].id != id
        invariant k <= |rows| && forall j :: 0 <= j < k ==> rows[j].id != id
      {
        k := k + 1;
      }
    }

    /** Reports failure, and whether the blob was there already. */
    method WriteBlob(blob: Blob, fails: bool) returns (ok: bool, deduplicated: bool)
      modifies this`disk
      ensures var path := PathFor(hash(blob));
        && deduplicated == (path in old(disk)) && ok == (deduplicated || !fails)
        && disk == if ok then Written(old(disk), path, blob) else old(disk)
    {
      var path := PathFor(hash(blob));
      if path in disk { return true, true; }
      if fails { return false, false; }
      disk := disk[path := blob];
      return true, false;
    }

    method SafeBlobDelete(path: Path, unlinks: bool)
      modifies this`disk
      ensures disk == Unlinked(old(disk), path, unlinks)
    {
      if unlinks { disk := disk - {path}; }
    }

    method HandleUpload(blob: Blob, fault: Fault, unlinks: bool) returns (outcome: Outcome)
      modifies this
      ensures Result(Now(), outcome) == Upload(old(Now()), hash, blob, fault, unlinks)
    {
      if |blob.bytes| > MAX_MIDI_FILE_SIZE { return Refused; }
      var h := hash(blob);
      var ok, _ := WriteBlob(blob, fault == AtWrite);
      if !ok { return Refused; }
      var existing := LookUpHash(h);
      if existing < |rows| { return Duplicate(rows[existing].id); }
      if fault == AtParse || fault == TooComplex {
        SafeBlobDelete(PathFor(h), unlinks);
        return Refused;
      }
      if fault == AtAnalysis || fault == Invalid || fault == AtPersist {
        var other := LookUpHash(h);
        if other == |rows| { SafeBlobDelete(PathFor(h), unlinks); }
        return Refused;
      }
      rows := rows + [Row(nextId, h, PathFor(h))];
      nextId := nextId + 1;
      return Created(nextId - 1);
    }

    method CreateDerivedFile(blob: Blob, fault: Fault, unlinks: bool) returns (outcome: Outcome)
      modifies this
      ensures Result(Now(), outcome) == Derive(old(Now()), hash, blob, fault, unlinks)
    {
      if |blob.bytes| > MAX_MIDI_FILE_SIZE { return Refused; }
      var h := hash(blob);
      var ok, _ := WriteBlob(blob, fault == AtWrite);
      if !ok { return Refused; }
      var existing := LookUpHash(h);
      if existing < |rows| { return Duplicate(rows[existing].id); }
      if fault == AtParse || fault == AtAnalysis { return Refused; }
      if fault == AtPersist {
        var other := LookUpHash(h);
        if other == |rows| { SafeBlobDelete(PathFor(h), unlinks); }
        return Refused;
      }
      rows := rows + [Row(nextId, h, PathFor(h))];
      nextId := nextId + 1;
      return Created(nextId - 1);
    }

    /** What saving, baking and replacing have in common. */
    method RewriteFile(id: int, blob: Blob, fault: Fault, unlinks: bool, cleans: bool) returns (outcome: Outcome)
      modifies this
      ensures Result(Now(), outcome) == Rewrite(old(Now()), hash, id, blob, fault, unlinks, cleans)
    {
      var k := LookUpId(id);
      if k == |rows| { return Refused; }
      var file, h := rows[k], hash(blob);
      var ok, deduplicated := WriteBlob(blob, fault == AtWrite);
      if !ok { return Refused; }
      if h != file.hash {
        var collision := LookUpHash(h);
        if collision < |rows| {
          if !deduplicated { SafeBlobDelete(PathFor(h), unlinks); }
          return Refused;
        }
      }
      if FailsLate(fault) {
        if cleans && !deduplicated && PathFor(h) != file.path { SafeBlobDelete(PathFor(h), unlinks); }
        return Refused;
      }
      rows := rows[k := Row(id, h, PathFor(h))];
      if file.path != PathFor(h) { SafeBlobDelete(file.path, unlinks); }
      return Done;
    }

    method SaveFile(id: int, blob: Blob, fault: Fault, unlinks: bool) returns (outcome: Outcome)
      modifies this
      ensures Result(Now(), outcome) == Save(old(Now()), hash, id, blob, fault, unlinks)
    {
      if |blob.bytes| > MAX_MIDI_FILE_SIZE { return Refused; }
      outcome := RewriteFile(id, blob, fault, unlinks, true);
    }

    /** Baked bytes are not held to the size limit. */
    method BakeAndSave(id: int, blob: Blob, fault: Fault, unlinks: bool) returns (outcome: Outcome)
      modifies this
      ensures Result(Now(), outcome) == Rewrite(old(Now()), hash, id, blob, fault, unlinks, false)
    {
      outcome := RewriteFile(id, blob, fault, unlinks, false);
    }

    method ReplaceFileBytes(id: int, blob: Blob, fault: Fault, unlinks: bool) returns (outcome: Outcome)
      modifies this
      ensures Result(Now(), outcome) == Replace(old(Now()), hash, id, blob, fault, unlinks)
    {
      if |blob.bytes| > MAX_MIDI_FILE_SIZE { return Refused; }
      outcome := RewriteFile(id, blob, fault, unlinks, false);
    }

    method DeleteFile(id: int, unlinks: bool) returns (outcome: Outcome)
      modifies this
      ensures Result(Now(), outcome) == Delete(old(Now()), id, unlinks)
    {
      if id <= 0 { return Refused; }
      var k := LookUpId(id);
      if k == |rows| { return Refused; }
      var file := rows[k];
      rows := rows[..k] + rows[k + 1..];
      SafeBlobDelete(file.path, unlinks);
      return Done;
    }

    /** `listing` is what the shard directories hold, in the order they are read. */
    method GcOrphanBlobs(listing: seq<Path>, stuck: set<Path>)
      requires forall p :: p in disk <==> p in listing
      modifies this
      ensures Now() == Collect(old(Now()), stuck)
    {
      var referenced := Referenced(rows);
      if referenced == {} { return; }
      for i := 0 to |listing|
        invariant rows == old(rows) && nextId == old(nextId)
        invariant disk == map p | p in old(disk) && (p in referenced || p in stuck || p !in listing[..i]) :: old(disk)[p]
      {
        var p := listing[i];
        assert forall q :: q in listing[..i + 1] <==> q in listing[..i] || q == p;
        if p !in referenced && p !in stuck { disk := disk - {p}; }
      }
      assert listing[..|listing|] == listing;
    }
  }

  // ---- integrity ----

  /** Every blob is filed under the hash of its content. */
  ghost predicate StoreOk(disk: Disk, hash: Blob -> Hash) { forall p :: p in disk ==> p == PathFor(hash(disk[p])) }

  /** Ids and hashes are unique, and each row's path is that of its hash. */
  ghost predicate RowsOk(rows: seq<Row>) {
    && (forall i, j :: 0 <= i < j < |rows| ==> rows[i].id != rows[j].id && rows[i].hash != rows[j].hash)
    && forall k :: 0 <= k < |rows| ==> rows[k].path == PathFor(rows[k].hash)
  }

  ghost predicate OnDisk(rows: seq<Row>, disk: Disk) { forall k :: 0 <= k < |rows| ==> rows[k].path in disk }

  ghost predicate Integrity(lib: Library, hash: Blob -> Hash) {
    && RowsOk(lib.rows) && OnDisk(lib.rows, lib.disk) && StoreOk(lib.disk, hash)
    && 0 < lib.nextId && forall k :: 0 <= k < |lib.rows| ==> 0 < lib.rows[k].id < lib.nextId
  }

  /** Different rows name different blobs. */
  lemma {:induction false} PathsDiffer(rows: seq<Row>)
    requires RowsOk(rows)
    ensures forall i, j :: 0 <= i < j < |rows| ==> rows[i].path != rows[j].path
  {
    hide PathFor;
    forall i, j | 0 <= i < j < |rows| ensures rows[i].path != rows[j].path {
      if rows[i].path == rows[j].path { PathInjective(rows[i].hash, rows[j].hash); }
    }
  }

  /** The blob of a hash that no row has is no row's blob. */
  lemma {:induction false} UnusedPath(rows: seq<Row>, h: Hash)
    requires RowsOk(rows) && forall k :: 0 <= k < |rows| ==> rows[k].hash != h
    ensures forall k :: 0 <= k < |rows| ==> rows[k].path != PathFor(h)
  {
    hide PathFor;
    forall k | 0 <= k < |rows| ensures rows[k].path != PathFor(h) {
      if rows[k].path == PathFor(h) { PathInjective(rows[k].hash, h); }
    }
  }

  lemma {:induction false} WriteKeepsStore(disk: Disk, hash: Blob -> Hash, blob: Blob)
    requires StoreOk(disk, hash)
    ensures StoreOk(Written(disk, PathFor(hash(blob)), blob), hash)
    ensures Written(disk, PathFor(hash(blob)), blob).Keys == disk.Keys + {PathFor(hash(blob))}
  {
    hide PathFor;
  }

  lemma {:induction false} InsertKeepsRows(rows: seq<Row>, id: int, h: Hash)
    requires RowsOk(rows) && (forall k :: 0 <= k < |rows| ==> rows[k].hash != h) && forall k :: 0 <= k < |rows| ==> rows[k].id < id
    ensures RowsOk(rows + [Row(id, h, PathFor(h))])
  {
    hide PathFor;
  }

  /** Taking back a blob that was not there before touches no row's blob. */
  lemma {:induction false} TakeBackKeepsIntegrity(lib: Library, hash: Blob -> Hash, blob: Blob, unlinks: bool)
    requires Integrity(lib, hash)
    ensures var path := PathFor(hash(blob));
      var disk := Written(lib.disk, path, blob);
      && Integrity(lib.(disk := disk), hash)
      && (path !in lib.disk ==> Integrity(lib.(disk := Unlinked(disk, path, unlinks)), hash))
  {
    WriteKeepsStore(lib.disk, hash, blob);
    hide PathFor, RowsOk;
  }

  /** A row for a hash that no row has yet. */
  lemma {:induction false} AddedKeepsIntegrity(lib: Library, hash: Blob -> Hash, blob: Blob)
    requires Integrity(lib, hash) && FindHash(lib.rows, hash(blob)) == |lib.rows|
    ensures var h := hash(blob);
      Integrity(Library(lib.rows + [Row(lib.nextId, h, PathFor(h))], Written(lib.disk, PathFor(h), blob), lib.nextId + 1), hash)
  {
    WriteKeepsStore(lib.disk, hash, blob);
    InsertKeepsRows(lib.rows, lib.nextId, hash(blob));
    hide PathFor, RowsOk, StoreOk, FindHash;
  }

  /** A blob that no row refers to, written and taken back. */
  lemma {:induction false} UnwrittenKeepsIntegrity(lib: Library, hash: Blob -> Hash, blob: Blob, unlinks: bool)
    requires Integrity(lib, hash) && FindHash(lib.rows, hash(blob)) == |lib.rows|
    ensures var path := PathFor(hash(blob));
      Integrity(lib.(disk := Unlinked(Written(lib.disk, path, blob), path, unlinks)), hash)
  {
    TakeBackKeepsIntegrity(lib, hash, blob, unlinks);
    UnusedPath(lib.rows, hash(blob));
    hide PathFor, RowsOk, FindHash, Written;
  }

  lemma {:induction false} UploadKeepsIntegrity(lib: Library, hash: Blob -> Hash, blob: Blob, fault: Fault, unlinks: bool)
    requires Integrity(lib, hash)
    ensures Integrity(Upload(lib, hash, blob, fault, unlinks).lib, hash)
  {
    TakeBackKeepsIntegrity(lib, hash, blob, unlinks);
    if FindHash(lib.rows, hash(blob)) == |lib.rows| {
      AddedKeepsIntegrity(lib, hash, blob);
      UnwrittenKeepsIntegrity(lib, hash, blob, unlinks);
    }
    hide PathFor, Integrity, FindHash, Written, Unlinked;
  }

  lemma {:induction false} DeriveKeepsIntegrity(lib: Library, hash: Blob -> Hash, blob: Blob, fault: Fault, unlinks: bool)
    requires Integrity(lib, hash)
    ensures Integrity(Derive(lib, hash, blob, fault, unlinks).lib, hash)
  {
    TakeBackKeepsIntegrity(lib, hash, blob, unlinks);
    if FindHash(lib.rows, hash(blob)) == |lib.rows| {
      AddedKeepsIntegrity(lib, hash, blob);
      UnwrittenKeepsIntegrity(lib, hash, blob, unlinks);
    }
    hide PathFor, Integrity, FindHash, Written, Unlinked;
  }

  lemma {:induction false} ReplaceKeepsRows(rows: seq<Row>, k: nat, h: Hash)
    requires RowsOk(rows) && k < |rows| && (h == rows[k].hash || forall j :: 0 <= j < |rows| ==> rows[j].hash != h)
    ensures RowsOk(rows[k := Row(rows[k].id, h, PathFor(h))])
  {
    hide PathFor;
  }

  /** Putting another hash under row `k` and unlinking the row's old blob. */
  lemma {:induction false} SwapKeepsIntegrity(lib: Library, hash: Blob -> Hash, k: nat, blob: Blob, unlinks: bool)
    requires Integrity(lib, hash) && k < |lib.rows|
    requires hash(blob) == lib.rows[k].hash || forall j :: 0 <= j < |lib.rows| ==> lib.rows[j].hash != hash(blob)
    ensures var row, path := lib.rows[k], PathFor(hash(blob));
      var disk := Written(lib.disk, path, blob);
      Integrity(lib.(rows := lib.rows[k := Row(row.id, hash(blob), path)],
                     disk := if row.path != path then Unlinked(disk, row.path, unlinks) else disk), hash)
  {
    WriteKeepsStore(lib.disk, hash, blob);
    PathsDiffer(lib.rows);
    ReplaceKeepsRows(lib.rows, k, hash(blob));
    hide PathFor, RowsOk;
  }

  lemma {:induction false} RewriteKeepsIntegrity(lib: Library, hash: Blob -> Hash, id: int, blob: Blob, fault: Fault,
                                                 unlinks: bool, cleans: bool)
    requires Integrity(lib, hash)
    ensures Integrity(Rewrite(lib, hash, id, blob, fault, unlinks, cleans).lib, hash)
  {
    var h, k := hash(blob), FindId(lib.rows, id);
    TakeBackKeepsIntegrity(lib, hash, blob, unlinks);
    if k < |lib.rows| && (h == lib.rows[k].hash || FindHash(lib.rows, h) == |lib.rows|) {
      SwapKeepsIntegrity(lib, hash, k, blob, unlinks);
    }
    hide PathFor, Integrity, Written, Unlinked;
  }

  lemma {:induction false} RestOfRows(rows: seq<Row>, k: nat)
    requires RowsOk(rows) && k < |rows|
    ensures RowsOk(rows[..k] + rows[k + 1..])
    ensures forall r :: r in rows[..k] + rows[k + 1..] ==> r in rows && r.path != rows[k].path
  {
    hide PathFor;
    PathsDiffer(rows);
    var rest := rows[..k] + rows[k + 1..];
    assert forall j :: 0 <= j < |rest| ==> rest[j] == rows[if j < k then j else j + 1];
  }

  lemma {:induction false} DeleteKeepsIntegrity(lib: Library, hash: Blob -> Hash, id: int, unlinks: bool)
    requires Integrity(lib, hash)
    ensures Integrity(Delete(lib, id, unlinks).lib, hash)
  {
    hide PathFor, RowsOk;
    var k := FindId(lib.rows, id);
    if k < |lib.rows| {
      RestOfRows(lib.rows, k);
      var rest := lib.rows[..k] + lib.rows[k + 1..];
      forall j | 0 <= j < |rest| ensures rest[j].path in lib.disk && rest[j].path != lib.rows[k].path && 0 < rest[j].id < lib.nextId {
        assert rest[j] in rest;
      }
    }
  }

  lemma {:induction false} CollectKeepsIntegrity(lib: Library, hash: Blob -> Hash, stuck: set<Path>)
    requires Integrity(lib, hash)
    ensures Integrity(Collect(lib, stuck), hash)
  {
    hide PathFor;
  }

  // ---- orphans ----

  function Orphans(lib: Library): set<Path> { lib.disk.Keys - Referenced(lib.rows) }

  /** A collection that can unlink everything leaves exactly the referenced blobs, unless there is no row at all. */
  lemma {:induction false} CollectLeavesReferenced(lib: Library, hash: Blob -> Hash)
    requires Integrity(lib, hash)
    ensures Collect(lib, {}).disk.Keys == Referenced(lib.rows) <==> lib.rows != [] || lib.disk.Keys == {}
  {
    if lib.rows != [] { assert lib.rows[0].path in Referenced(lib.rows); }
    forall p | p in Referenced(lib.rows) ensures p in lib.disk {}
  }

  /** Is the blob new, so that leaving it behind makes an orphan? */
  predicate IsNew(lib: Library, hash: Blob -> Hash, blob: Blob) { PathFor(hash(blob)) !in lib.disk }

  /** An upload, failed or not, makes no orphan, if it can unlink. */
  lemma {:induction false} UploadLeavesNoOrphan(lib: Library, hash: Blob -> Hash, blob: Blob, fault: Fault)
    requires Integrity(lib, hash)
    ensures Orphans(Upload(lib, hash, blob, fault, true).lib) <= Orphans(lib)
  {
    AddedRows(lib.rows, Row(lib.nextId, hash(blob), PathFor(hash(blob))));
    HasRow(lib.rows, FindHash(lib.rows, hash(blob)));
    hide PathFor;
  }

  /** A derived file leaves its blob behind exactly when parsing or analysing a new one fails. */
  lemma {:induction false} DeriveLeavesOrphan(lib: Library, hash: Blob -> Hash, blob: Blob, fault: Fault)
    requires Integrity(lib, hash)
    ensures Orphans(Derive(lib, hash, blob, fault, true).lib) <= Orphans(lib) <==>
      !(IsNew(lib, hash, blob) && |blob.bytes| <= MAX_MIDI_FILE_SIZE && (fault == AtParse || fault == AtAnalysis))
  {
    var path := PathFor(hash(blob));
    AddedRows(lib.rows, Row(lib.nextId, hash(blob), path));
    HasRow(lib.rows, FindHash(lib.rows, hash(blob)));
    NewIsUnreferenced(lib, hash, path);
    hide PathFor;
    if path !in lib.disk && |blob.bytes| <= MAX_MIDI_FILE_SIZE && (fault == AtParse || fault == AtAnalysis) {
      assert path in Orphans(Derive(lib, hash, blob, fault, true).lib);
    }
  }

  lemma {:induction false} AddedRows(rows: seq<Row>, row: Row)
    ensures Referenced(rows + [row]) == Referenced(rows) + {row.path}
  {
    var more := rows + [row];
    forall p | p in Referenced(rows) + {row.path} ensures p in Referenced(more) {
      if p == row.path { assert more[|rows|].path == p; } else { var k :| 0 <= k < |rows| && rows[k].path == p; assert more[k].path == p; }
    }
  }

  lemma {:induction false} HasRow(rows: seq<Row>, k: nat)
    requires RowsOk(rows)
    ensures k < |rows| ==> PathFor(rows[k].hash) in Referenced(rows)
  {
    if k < |rows| { assert rows[k].path in Referenced(rows); }
  }

  lemma {:induction false} NewIsUnreferenced(lib: Library, hash: Blob -> Hash, path: Path)
    requires Integrity(lib, hash)
    ensures path !in lib.disk ==> path !in Referenced(lib.rows)
  {
  }

  lemma {:induction false} ReplacedRows(rows: seq<Row>, k: nat, row: Row)
    requires RowsOk(rows) && k < |rows|
    ensures Referenced(rows[k := row]) == Referenced(rows) - {rows[k].path} + {row.path}
  {
    PathsDiffer(rows);
    var after := rows[k := row];
    hide RowsOk;
    forall p | p in Referenced(rows) - {rows[k].path} + {row.path} ensures p in Referenced(after) {
      if p == row.path {
        assert after[k].path == p;
      } else {
        var j :| 0 <= j < |rows| && rows[j].path == p;
        assert after[j].path == p;
      }
    }
    forall p | p in Referenced(after) ensures p in Referenced(rows) - {rows[k].path} + {row.path} {
      var j :| 0 <= j < |after| && after[j].path == p;
      if j != k { assert rows[j].path == p; }
    }
  }

  lemma {:induction false} RemovedRow(rows: seq<Row>, k: nat)
    requires RowsOk(rows) && k < |rows|
    ensures Referenced(rows[..k] + rows[k + 1..]) == Referenced(rows) - {rows[k].path}
  {
    PathsDiffer(rows);
    var after := rows[..k] + rows[k + 1..];
    hide RowsOk;
    forall i | 0 <= i < |after| ensures after[i].path in Referenced(rows) - {rows[k].path} {
      var j := if i < k then i else i + 1;
      assert after[i] == rows[j];
    }
    forall j | 0 <= j < |rows| && j != k ensures rows[j].path in Referenced(after) {
      var i := if j < k then j else j - 1;
      assert after[i] == rows[j];
    }
  }

  /** Saving, baking and replacing leave an orphan exactly when a new blob fails late and nothing cleans up: saving cleans up. */
  lemma {:induction false} RewriteLeavesOrphan(lib: Library, hash: Blob -> Hash, id: int, blob: Blob, fault: Fault, cleans: bool)
    requires Integrity(lib, hash)
    ensures Orphans(Rewrite(lib, hash, id, blob, fault, true, cleans).lib) <= Orphans(lib) <==>
      !(IsNew(lib, hash, blob) && FindId(lib.rows, id) < |lib.rows| && FailsLate(fault) && !cleans)
  {
    var h, k := hash(blob), FindId(lib.rows, id);
    var path := PathFor(h);
    NewIsUnreferenced(lib, hash, path);
    HasRow(lib.rows, FindHash(lib.rows, h));
    if k < |lib.rows| {
      HasRow(lib.rows, k);
      ReplacedRows(lib.rows, k, Row(id, h, path));
      assert lib.rows[k].path in lib.disk;
    }
    assert forall p :: p in Referenced(lib.rows) ==> p in lib.disk;
    hide PathFor, RowsOk, Referenced;
    if IsNew(lib, hash, blob) && k < |lib.rows| && FailsLate(fault) && !cleans {
      assert path in Orphans(Rewrite(lib, hash, id, blob, fault, true, cleans).lib);
    }
  }

  lemma {:induction false} DeleteLeavesNoOrphan(lib: Library, hash: Blob -> Hash, id: int)
    requires Integrity(lib, hash)
    ensures Orphans(Delete(lib, id, true).lib) <= Orphans(lib)
  {
    var k := FindId(lib.rows, id);
    if k < |lib.rows| { RemovedRow(lib.rows, k); }
    hide RowsOk, Referenced;
  }

  // ---- what is stored is what is read ----

  /** SHA-256, taken to tell all contents apart. */
  ghost predicate Injective(hash: Blob -> Hash) { forall a, b :: hash(a) == hash(b) ==> a == b }

  /** The blob of a row is the content the row was made for. */
  lemma {:induction false} RowReads(lib: Library, hash: Blob -> Hash, k: nat, blob: Blob)
    requires Integrity(lib, hash) && Injective(hash) && k < |lib.rows| && lib.rows[k].hash == hash(blob)
    ensures lib.rows[k].path in lib.disk && lib.disk[lib.rows[k].path] == blob
  {
    var path := lib.rows[k].path;
    assert path in lib.disk;
    PathInjective(hash(lib.disk[path]), hash(blob));
  }

  /** An upload that is not refused, new or duplicate, reads back as the uploaded bytes under the id it returns. */
  lemma {:induction false} UploadReadsBack(lib: Library, hash: Blob -> Hash, blob: Blob, fault: Fault, unlinks: bool)
    requires Integrity(lib, hash) && Injective(hash)
    requires Upload(lib, hash, blob, fault, unlinks).outcome != Refused
    ensures var r := Upload(lib, hash, blob, fault, unlinks);
      (r.outcome.Created? || r.outcome.Duplicate?) && ReadsBack(r.lib, r.outcome.id, blob)
  {
    var r := Upload(lib, hash, blob, fault, unlinks);
    UploadKeepsIntegrity(lib, hash, blob, fault, unlinks);
    var k := FindHash(lib.rows, hash(blob));
    assert r.lib.rows[k].hash == hash(blob) && r.lib.rows[k].id == r.outcome.id;
    RowReads(r.lib, hash, k, blob);
    IdIsUnique(r.lib.rows, k);
  }

  predicate ReadsBack(lib: Library, id: int, blob: Blob) {
    var k := FindId(lib.rows, id);
    k < |lib.rows| && lib.rows[k].path in lib.disk && lib.disk[lib.rows[k].path] == blob
  }

  lemma {:induction false} IdIsUnique(rows: seq<Row>, k: nat)
    requires RowsOk(rows) && k < |rows|
    ensures FindId(rows, rows[k].id) == k
  {
    var i := FindId(rows, rows[k].id);
    assert i <= k;
    assert rows[i].id == rows[k].id;
  }

  /** So does a derived file. */
  lemma {:induction false} DeriveReadsBack(lib: Library, hash: Blob -> Hash, blob: Blob, fault: Fault, unlinks: bool)
    requires Integrity(lib, hash) && Injective(hash)
    requires Derive(lib, hash, blob, fault, unlinks).outcome != Refused
    ensures var r := Derive(lib, hash, blob, fault, unlinks);
      (r.outcome.Created? || r.outcome.Duplicate?) && ReadsBack(r.lib, r.outcome.id, blob)
  {
    var r := Derive(lib, hash, blob, fault, unlinks);
    DeriveKeepsIntegrity(lib, hash, blob, fault, unlinks);
    var k := FindHash(lib.rows, hash(blob));
    assert r.lib.rows[k].hash == hash(blob) && r.lib.rows[k].id == r.outcome.id;
    hide Derive;
    RowReads(r.lib, hash, k, blob);
    IdIsUnique(r.lib.rows, k);
  }

  /** A failed rewrite leaves the rows as they were, and what they read. */
  lemma {:induction false} RefusedKeepsContent(lib: Library, hash: Blob -> Hash, id: int, blob: Blob, fault: Fault,
                                               unlinks: bool, cleans: bool, row: Row)
    requires Integrity(lib, hash) && row in lib.rows && Rewrite(lib, hash, id, blob, fault, unlinks, cleans).outcome == Refused
    ensures var after := Rewrite(lib, hash, id, blob, fault, unlinks, cleans).lib;
      after.rows == lib.rows && row.path in lib.disk && row.path in after.disk && after.disk[row.path] == lib.disk[row.path]
  {
    hide PathFor;
  }

  /** A rewrite that succeeds reads back as the new bytes. */
  lemma {:induction false} RewriteReadsBack(lib: Library, hash: Blob -> Hash, id: int, blob: Blob, fault: Fault,
                                            unlinks: bool, cleans: bool)
    requires Integrity(lib, hash) && Injective(hash)
    requires Rewrite(lib, hash, id, blob, fault, unlinks, cleans).outcome == Done
    ensures ReadsBack(Rewrite(lib, hash, id, blob, fault, unlinks, cleans).lib, id, blob)
  {
    var r, k := Rewrite(lib, hash, id, blob, fault, unlinks, cleans), FindId(lib.rows, id);
    RewriteKeepsIntegrity(lib, hash, id, blob, fault, unlinks, cleans);
    assert r.lib.rows[k].hash == hash(blob) && r.lib.rows[k].id == id;
    hide Rewrite;
    RowReads(r.lib, hash, k, blob);
    IdIsUnique(r.lib.rows, k);
  }

  // ---- every run ----

  datatype Op =
    | DoUpload(blob: Blob, fault: Fault) | DoDerive(blob: Blob, fault: Fault)
    | DoSave(id: int, blob: Blob, fault: Fault) | DoBake(id: int, blob: Blob, fault: Fault) | DoReplace(id: int, blob: Blob, fault: Fault)
    | DoDelete(id: int) | DoCollect(stuck: set<Path>)

  function Step(lib: Library, hash: Blob -> Hash, op: Op, unlinks: bool): Library {
    match op
    case DoUpload(blob, fault) => Upload(lib, hash, blob, fault, unlinks).lib
    case DoDerive(blob, fault) => Derive(lib, hash, blob, fault, unlinks).lib
    case DoSave(id, blob, fault) => Save(lib, hash, id, blob, fault, unlinks).lib
    case DoBake(id, blob, fault) => Rewrite(lib, hash, id, blob, fault, unlinks, false).lib
    case DoReplace(id, blob, fault) => Replace(lib, hash, id, blob, fault, unlinks).lib
    case DoDelete(id) => Delete(lib, id, unlinks).lib
    case DoCollect(stuck) => Collect(lib, stuck)
  }

  lemma {:induction false} StepKeepsIntegrity(lib: Library, hash: Blob -> Hash, op: Op, unlinks: bool)
    requires Integrity(lib, hash)
    ensures Integrity(Step(lib, hash, op, unlinks), hash)
  {
    match op
    case DoUpload(blob, fault) => UploadKeepsIntegrity(lib, hash, blob, fault, unlinks);
    case DoDerive(blob, fault) => DeriveKeepsIntegrity(lib, hash, blob, fault, unlinks);
    case DoSave(id, blob, fault) => RewriteKeepsIntegrity(lib, hash, id, blob, fault, unlinks, true);
    case DoBake(id, blob, fault) => RewriteKeepsIntegrity(lib, hash, id, blob, fault, unlinks, false);
    case DoReplace(id, blob, fault) => RewriteKeepsIntegrity(lib, hash, id, blob, fault, unlinks, false);
    case DoDelete(id) => DeleteKeepsIntegrity(lib, hash, id, unlinks);
    case DoCollect(stuck) => CollectKeepsIntegrity(lib, hash, stuck);
  }

  /** The three operations that leave a new blob behind when they fail late. */
  ghost predicate Leaks(lib: Library, hash: Blob -> Hash, op: Op) {
    match op
    case DoDerive(blob, fault) =>
      IsNew(lib, hash, blob) && |blob.bytes| <= MAX_MIDI_FILE_SIZE && (fault == AtParse || fault == AtAnalysis)
    case DoBake(id, blob, fault) => IsNew(lib, hash, blob) && FindId(lib.rows, id) < |lib.rows| && FailsLate(fault)
    case DoReplace(id, blob, fault) =>
      IsNew(lib, hash, blob) && |blob.bytes| <= MAX_MIDI_FILE_SIZE && FindId(lib.rows, id) < |lib.rows| && FailsLate(fault)
    case _ => false
  }

  /** With a disk that lets it unlink, a step makes an orphan exactly when it is one of those failures. */
  lemma {:induction false} StepLeavesOrphan(lib: Library, hash: Blob -> Hash, op: Op)
    requires Integrity(lib, hash)
    ensures Orphans(Step(lib, hash, op, true)) <= Orphans(lib) <==> !Leaks(lib, hash, op)
  {
    match op
    case DoUpload(blob, fault) => UploadLeavesNoOrphan(lib, hash, blob, fault);
    case DoDerive(blob, fault) => DeriveLeavesOrphan(lib, hash, blob, fault);
    case DoSave(id, blob, fault) => RewriteLeavesOrphan(lib, hash, id, blob, fault, true);
    case DoBake(id, blob, fault) => RewriteLeavesOrphan(lib, hash, id, blob, fault, false);
    case DoReplace(id, blob, fault) => RewriteLeavesOrphan(lib, hash, id, blob, fault, false);
    case DoDelete(id) => DeleteLeavesNoOrphan(lib, hash, id);
    case DoCollect(stuck) =>
  }

  /** The row an operation is about; a collection is about none. */
  function Target(lib: Library, op: Op): int {
    match op
    case DoUpload(_, _) => lib.nextId
    case DoDerive(_, _) => lib.nextId
    case DoSave(id, _, _) => id
    case DoBake(id, _, _) => id
    case DoReplace(id, _, _) => id
    case DoDelete(id) => id
    case DoCollect(_) => 0
  }

  /** No operation changes, adds or removes any other row. */
  lemma {:induction false} OtherRowsStay(lib: Library, hash: Blob -> Hash, op: Op, unlinks: bool, row: Row)
    requires Integrity(lib, hash) && row.id != Target(lib, op)
    ensures row in lib.rows <==> row in Step(lib, hash, op, unlinks).rows
  {
    hide PathFor, RowsOk, StoreOk, OnDisk, Written, Unlinked, FindHash;
    match op
    case DoDelete(id) =>
      var k := FindId(lib.rows, id);
      if k < |lib.rows| { assert lib.rows == lib.rows[..k] + [lib.rows[k]] + lib.rows[k + 1..]; }
    case DoSave(id, _, _) => RewrittenRows(lib.rows, FindId(lib.rows, id), row);
    case DoBake(id, _, _) => RewrittenRows(lib.rows, FindId(lib.rows, id), row);
    case DoReplace(id, _, _) => RewrittenRows(lib.rows, FindId(lib.rows, id), row);
    case _ =>
  }

  lemma {:induction false} RewrittenRows(rows: seq<Row>, k: nat, row: Row)
    requires k < |rows| ==> row.id != rows[k].id
    ensures k < |rows| ==> forall r: Row :: r.id == rows[k].id ==> (row in rows <==> row in rows[k := r])
  {
    if k < |rows| {
      forall r: Row | r.id == rows[k].id ensures row in rows <==> row in rows[k := r] {
        assert rows == rows[..k] + [rows[k]] + rows[k + 1..] && rows[k := r] == rows[..k] + [r] + rows[k + 1..];
      }
    }
  }

  /** A deleted file is gone, and its blob with it if the disk lets it go. */
  lemma {:induction false} DeleteForgets(lib: Library, hash: Blob -> Hash, id: int, unlinks: bool)
    requires Integrity(lib, hash) && FindId(lib.rows, id) < |lib.rows|
    ensures var r, k := Delete(lib, id, unlinks), FindId(lib.rows, id);
      && r.outcome == Done && FindId(r.lib.rows, id) == |r.lib.rows|
      && (unlinks ==> lib.rows[k].path !in r.lib.disk)
  {
    var k := FindId(lib.rows, id);
    var rest := lib.rows[..k] + lib.rows[k + 1..];
    hide PathFor, StoreOk, OnDisk;
    forall i | 0 <= i < |rest| ensures rest[i].id != id {
      var j := if i < k then i else i + 1;
      assert rest[i] == lib.rows[j];
      assert lib.rows[j].id != lib.rows[k].id;
    }
  }

  /** A run; `unlinks[i]` says whether the disk let step `i` unlink. */
  function Run(hash: Blob -> Hash, ops: seq<Op>, unlinks: seq<bool>): Library
    requires |unlinks| == |ops|
  {
    if ops == [] then Library([], map[], 1)
    else Step(Run(hash, ops[..|ops| - 1], unlinks[..|ops| - 1]), hash, ops[|ops| - 1], unlinks[|ops| - 1])
  }

  /** In every run, whatever fails: hashes are unique, and each row's blob is on disk, under its hash, with content of that hash. */
  lemma {:induction false} RunKeepsIntegrity(hash: Blob -> Hash, ops: seq<Op>, unlinks: seq<bool>)
    requires |unlinks| == |ops|
    ensures Integrity(Run(hash, ops, unlinks), hash)
  {
    if ops != [] {
      var n := |ops| - 1;
      RunKeepsIntegrity(hash, ops[..n], unlinks[..n]);
      StepKeepsIntegrity(Run(hash, ops[..n], unlinks[..n]), hash, ops[n], unlinks[n]);
    }
  }

  /** No step of the run leaks, and the disk always lets it unlink. */
  ghost predicate Tidy(hash: Blob -> Hash, ops: seq<Op>, unlinks: seq<bool>)
    requires |unlinks| == |ops|
  {
    ops == [] ||
    var n := |ops| - 1;
    Tidy(hash, ops[..n], unlinks[..n]) && unlinks[n] && !Leaks(Run(hash, ops[..n], unlinks[..n]), hash, ops[n])
  }

  lemma {:induction false} SameBlobs(lib: Library, p: Path)
    requires Orphans(lib) == {} && OnDisk(lib.rows, lib.disk)
    ensures p in lib.disk.Keys <==> p in Referenced(lib.rows)
  {
    if p in lib.disk.Keys { assert p !in Orphans(lib); }
  }

  /** After a tidy run the disk holds exactly the referenced blobs. */
  lemma {:induction false} TidyRunHasNoOrphan(hash: Blob -> Hash, ops: seq<Op>, unlinks: seq<bool>)
    requires |unlinks| == |ops| && Tidy(hash, ops, unlinks)
    ensures Run(hash, ops, unlinks).disk.Keys == Referenced(Run(hash, ops, unlinks).rows)
  {
    if ops != [] {
      var n := |ops| - 1;
      TidyRunHasNoOrphan(hash, ops[..n], unlinks[..n]);
      RunKeepsIntegrity(hash, ops[..n], unlinks[..n]);
      StepLeavesOrphan(Run(hash, ops[..n], unlinks[..n]), hash, ops[n]);
    }
    RunKeepsIntegrity(hash, ops, unlinks);
    var lib := Run(hash, ops, unlinks);
    assert Orphans(lib) == {};
    assert OnDisk(lib.rows, lib.disk);
    hide *;
    forall p ensures p in lib.disk.Keys <==> p in Referenced(lib.rows) { SameBlobs(lib, p); }
  }

  /** The library after the upload of `a` alone. */
  function Single(hash: Blob -> Hash, a: Blob): Library {
    Library([Row(1, hash(a), PathFor(hash(a)))], map[PathFor(hash(a)) := a], 2)
  }

  lemma {:induction false} FirstUpload(hash: Blob -> Hash, a: Blob)
    requires |a.bytes| <= MAX_MIDI_FILE_SIZE
    ensures Upload(Library([], map[], 1), hash, a, NoFault, true).lib == Single(hash, a)
  {
  }

  lemma {:induction false} FailedBake(hash: Blob -> Hash, a: Blob, b: Blob)
    requires hash(a) != hash(b)
    ensures Rewrite(Single(hash, a), hash, 1, b, AtPersist, true, false).lib
            == Single(hash, a).(disk := map[PathFor(hash(a)) := a, PathFor(hash(b)) := b])
  {
    if PathFor(hash(a)) == PathFor(hash(b)) { PathInjective(hash(a), hash(b)); }
    hide PathFor;
    var rows := Single(hash, a).rows;
    assert FindId(rows, 1) == 0 && FindHash(rows, hash(b)) == 1;
  }

  /** An uploaded file baked to other bytes, whose transaction then fails: the new blob is an orphan. */
  lemma {:induction false} FailedBakeLeavesOrphan(hash: Blob -> Hash, a: Blob, b: Blob)
    requires |a.bytes| <= MAX_MIDI_FILE_SIZE && hash(a) != hash(b)
    ensures var lib := Run(hash, [DoUpload(a, NoFault), DoBake(1, b, AtPersist)], [true, true]);
      lib.rows == Single(hash, a).rows && Orphans(lib) == {PathFor(hash(b))}
  {
    var ops, yes := [DoUpload(a, NoFault), DoBake(1, b, AtPersist)], [true, true];
    assert Run(hash, [ops[0]], [true]) == Single(hash, a) by { FirstUpload(hash, a); }
    assert ops[..1] == [ops[0]] && yes[..1] == [true];
    assert Run(hash, ops, yes) == Rewrite(Single(hash, a), hash, 1, b, AtPersist, true, false).lib;
    hide Rewrite, Run;
    FailedBake(hash, a, b);
    if PathFor(hash(a)) == PathFor(hash(b)) { PathInjective(hash(a), hash(b)); }
    assert Referenced(Single(hash, a).rows) == {PathFor(hash(a))};
  }

  // ---- exactly what is refused ----

  /** An upload is refused when it is above 10 MiB, cannot be written, or fails in a later step without having a row already. */
  lemma {:induction false} UploadRefusedExactly(lib: Library, hash: Blob -> Hash, blob: Blob, fault: Fault, unlinks: bool)
    ensures Upload(lib, hash, blob, fault, unlinks).outcome == Refused <==>
      || |blob.bytes| > 10485760
      || (fault == AtWrite && PathFor(hash(blob)) !in lib.disk)
      || (fault !in {NoFault, AtWrite} && forall k :: 0 <= k < |lib.rows| ==> lib.rows[k].hash != hash(blob))
  {
    hide PathFor;
  }

  /** A derived file is never refused for being complex or invalid. */
  lemma {:induction false} DeriveRefusedExactly(lib: Library, hash: Blob -> Hash, blob: Blob, fault: Fault, unlinks: bool)
    ensures Derive(lib, hash, blob, fault, unlinks).outcome == Refused <==>
      || |blob.bytes| > 10485760
      || (fault == AtWrite && PathFor(hash(blob)) !in lib.disk)
      || (fault in {AtParse, AtAnalysis, AtPersist} && forall k :: 0 <= k < |lib.rows| ==> lib.rows[k].hash != hash(blob))
  {
    hide PathFor;
  }

  /** A rewrite needs its row, its blob, a hash that no other row has, and its later steps; only baking has no size limit. */
  lemma {:induction false} RewriteRefusedExactly(lib: Library, hash: Blob -> Hash, id: int, k: nat, blob: Blob, fault: Fault, unlinks: bool)
    requires RowsOk(lib.rows) && k < |lib.rows| && lib.rows[k].id == id
    ensures var fails :=
        || (fault == AtWrite && PathFor(hash(blob)) !in lib.disk)
        || (exists j :: 0 <= j < |lib.rows| && j != k && lib.rows[j].hash == hash(blob))
        || fault in {AtParse, AtAnalysis, AtPersist};
      && (Rewrite(lib, hash, id, blob, fault, unlinks, false).outcome == Refused <==> fails)
      && (Save(lib, hash, id, blob, fault, unlinks).outcome == Refused <==> |blob.bytes| > 10485760 || fails)
      && (Replace(lib, hash, id, blob, fault, unlinks).outcome == Refused <==> |blob.bytes| > 10485760 || fails)
  {
    IdIsUnique(lib.rows, k);
    OtherHasHash(lib.rows, k, hash(blob));
    hide PathFor, RowsOk, FindId, FindHash, Written, Unlinked;
  }

  lemma {:induction false} OtherHasHash(rows: seq<Row>, k: nat, h: Hash)
    requires RowsOk(rows) && k < |rows|
    ensures (exists j :: 0 <= j < |rows| && j != k && rows[j].hash == h) <==> h != rows[k].hash && FindHash(rows, h) < |rows|
  {
    var i := FindHash(rows, h);
    if h != rows[k].hash && i < |rows| { assert i != k && rows[i].hash == h; }
  }

  /** A row that is missing is refused. */
  lemma {:induction false} MissingRowIsRefused(lib: Library, hash: Blob -> Hash, id: int, blob: Blob, fault: Fault, unlinks: bool, cleans: bool)
    requires forall k :: 0 <= k < |lib.rows| ==> lib.rows[k].id != id
    ensures Rewrite(lib, hash, id, blob, fault, unlinks, cleans) == Result(lib, Refused) && Delete(lib, id, unlinks) == Result(lib, Refused)
  {
    hide PathFor;
  }

  /** Where a blob is filed. */
  lemma {:induction false} PathOfHash()
    ensures PathFor(Hash("0a1b2c")) == Path("midi/0a/0a1b2c.mid")
  {
    assert "0a1b2c"[..2] == "0a";
  }
}
