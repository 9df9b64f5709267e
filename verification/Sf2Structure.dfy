/**
 The structural check of a soundfont file before it is parsed: a RIFF container
 of form sfbk whose chunks, and the sub-chunks of its LIST chunks, stay inside
 what contains them (sections 3 and 4 of the SoundFont Technical Specification 2.04).
 */
module Sf2Structure {
  import opened LittleEndian

  datatype Result =
    | Accepted | TooShort | NotRiff | RiffTooLong | NotSfbk
    | TooManyChunks | ChunkTooLong(at: nat) | TooManySubChunks | SubChunkTooLong(at: nat)

  const MAX_CHUNKS := 100000
  const MAX_SUB_CHUNKS := 2000000

  /** The four-character code at `o`. */
  predicate Tag(u8: seq<Byte>, o: nat, c0: Byte, c1: Byte, c2: Byte, c3: Byte)
    requires o + 4 <= |u8|
  {
    u8[o] == c0 && u8[o + 1] == c1 && u8[o + 2] == c2 && u8[o + 3] == c3
  }

  predicate IsRiff(u8: seq<Byte>, o: nat) requires o + 4 <= |u8| { Tag(u8, o, 0x52, 0x49, 0x46, 0x46) }
  predicate IsSfbk(u8: seq<Byte>, o: nat) requires o + 4 <= |u8| { Tag(u8, o, 0x73, 0x66, 0x62, 0x6b) }
  predicate IsList(u8: seq<Byte>, o: nat) requires o + 4 <= |u8| { Tag(u8, o, 0x4c, 0x49, 0x53, 0x54) }

  /** A chunk as declared: an 8-byte header at `at`, then `size` bytes. */
  datatype Chunk = Chunk(at: nat, size: nat) {
    function Body(): nat { at + 8 }
    function End(): nat { Body() + size }
    /** Chunks start at even distances: an odd size is followed by a padding byte. */
    function Next(): nat { End() + size % 2 }
  }

  /** The chunks declared from `pos` on, as far as headers fit below `end`. */
  function Chunks(u8: seq<Byte>, pos: nat, end: nat): seq<Chunk>
    requires end <= |u8|
    decreases end - pos
  {
    if pos + 8 > end then [] else
      var c := Chunk(pos, ReadU32(u8, pos + 4));
      [c] + Chunks(u8, c.Next(), end)
  }

  ghost predicate AllFit(chunks: seq<Chunk>, end: nat) { forall i :: 0 <= i < |chunks| ==> chunks[i].End() <= end }

  function SubChunks(u8: seq<Byte>, c: Chunk): seq<Chunk>
    requires c.End() <= |u8|
  {
    Chunks(u8, c.Body() + 4, c.End())
  }

  /** The chunk ends inside its container; as a LIST, so do its sub-chunks, and there are not too many. */
  ghost predicate ChunkOk(u8: seq<Byte>, c: Chunk, end: nat) {
    && c.End() <= end <= |u8|
    && (IsList(u8, c.at) ==> AllFit(SubChunks(u8, c), c.End()) && |SubChunks(u8, c)| <= MAX_SUB_CHUNKS)
  }

  ghost predicate Framed(u8: seq<Byte>) {
    |u8| >= 12 && IsRiff(u8, 0) && 8 + ReadU32(u8, 4) <= |u8| && IsSfbk(u8, 8)
  }

  function RiffEnd(u8: seq<Byte>): nat requires |u8| >= 12 { 8 + ReadU32(u8, 4) }

  function TopChunks(u8: seq<Byte>): seq<Chunk>
    requires |u8| >= 12 && RiffEnd(u8) <= |u8|
  {
    Chunks(u8, 12, RiffEnd(u8))
  }

  ghost predicate WellStructured(u8: seq<Byte>) {
    && Framed(u8)
    && |TopChunks(u8)| <= MAX_CHUNKS
    && forall i :: 0 <= i < |TopChunks(u8)| ==> ChunkOk(u8, TopChunks(u8)[i], RiffEnd(u8))
  }

  /** What a refusal reports is so: the chunk it names is declared and leaves its container. */
  ghost predicate Justified(u8: seq<Byte>, r: Result) {
    match r
    case Accepted => WellStructured(u8)
    case TooShort => |u8| < 12
    case NotRiff => |u8| >= 12 && !IsRiff(u8, 0)
    case RiffTooLong => |u8| >= 12 && IsRiff(u8, 0) && RiffEnd(u8) > |u8|
    case NotSfbk => |u8| >= 12 && IsRiff(u8, 0) && RiffEnd(u8) <= |u8| && !IsSfbk(u8, 8)
    case TooManyChunks => Framed(u8) && |TopChunks(u8)| > MAX_CHUNKS
    case ChunkTooLong(at) => Framed(u8) && exists c :: c in TopChunks(u8) && c.at == at && c.End() > RiffEnd(u8)
    case TooManySubChunks =>
      Framed(u8) && exists c :: c in TopChunks(u8) && ListWith(u8, c) && |SubChunks(u8, c)| > MAX_SUB_CHUNKS
    case SubChunkTooLong(at) =>
      Framed(u8) && exists c :: c in TopChunks(u8) && ListWith(u8, c) && Overflowing(SubChunks(u8, c), at, c.End())
  }

  predicate ListWith(u8: seq<Byte>, c: Chunk) { c.End() <= |u8| && c.at + 4 <= |u8| && IsList(u8, c.at) }

  ghost predicate Overflowing(chunks: seq<Chunk>, at: nat, end: nat) {
    exists s :: s in chunks && s.at == at && s.End() > end
  }

  /** One step of a walk that has `seen` some chunks. */
  lemma {:induction false} NextChunk(u8: seq<Byte>, seen: seq<Chunk>, pos: nat, end: nat) returns (c: Chunk)
    requires pos + 8 <= end <= |u8|
    ensures c == Chunk(pos, ReadU32(u8, pos + 4))
    ensures seen + Chunks(u8, pos, end) == (seen + [c]) + Chunks(u8, c.Next(), end)
    ensures (seen + Chunks(u8, pos, end))[|seen|] == c
  {
    c := Chunk(pos, ReadU32(u8, pos + 4));
    assert Chunks(u8, pos, end) == [c] + Chunks(u8, c.Next(), end);
  }

  /** The inner loop: the sub-chunks of a LIST chunk. */
  method CheckList(u8: seq<Byte>, c: Chunk) returns (r: Result)
    requires c.End() <= |u8|
    ensures r.Accepted? ==> AllFit(SubChunks(u8, c), c.End()) && |SubChunks(u8, c)| <= MAX_SUB_CHUNKS
    ensures r.Accepted? || r.TooManySubChunks? || r.SubChunkTooLong?
    ensures r.TooManySubChunks? ==> |SubChunks(u8, c)| > MAX_SUB_CHUNKS
    ensures r.SubChunkTooLong? ==> Overflowing(SubChunks(u8, c), r.at, c.End())
  {
    var listEnd, sub, subGuard := c.End(), c.Body() + 4, 0;
    ghost var seen: seq<Chunk> := [];
    assert SubChunks(u8, c) == seen + Chunks(u8, sub, listEnd);
    while sub + 8 <= listEnd
      invariant SubChunks(u8, c) == seen + Chunks(u8, sub, listEnd)
      invariant |seen| == subGuard <= MAX_SUB_CHUNKS && AllFit(seen, listEnd)
      decreases listEnd - sub
    {
      hide SubChunks, ReadU32;
      ghost var s := NextChunk(u8, seen, sub, listEnd);
      assert SubChunks(u8, c)[|seen|] == s;
      subGuard := subGuard + 1;
      if subGuard > MAX_SUB_CHUNKS { return TooManySubChunks; }
      var subSize := ReadU32(u8, sub + 4);
      if sub + 8 + subSize > listEnd { return SubChunkTooLong(sub); }
      seen := seen + [s];
      sub := sub + 8 + subSize + subSize % 2;
    }
    assert seen + [] == seen;
    return Accepted;
  }

  /** The walk accepts exactly the well-structured files, and refuses the others for the reason it gives. */
  method ValidateSf2Structure(u8: seq<Byte>) returns (r: Result)
    ensures r.Accepted? <==> WellStructured(u8)
    ensures Justified(u8, r)
  {
    var len := |u8|;
    if len < 12 { return TooShort; }
    if !IsRiff(u8, 0) { return NotRiff; }
    var riffLen := ReadU32(u8, 4);
    if 8 + riffLen > len { return RiffTooLong; }
    if !IsSfbk(u8, 8) { return NotSfbk; }

    var end, pos, chunkGuard := 8 + riffLen, 12, 0;
    ghost var seen: seq<Chunk> := [];
    while pos + 8 <= end
      invariant TopChunks(u8) == seen + Chunks(u8, pos, end)
      invariant |seen| == chunkGuard <= MAX_CHUNKS
      invariant forall i :: 0 <= i < |seen| ==> ChunkOk(u8, seen[i], end)
      decreases end - pos
    {
      var c := Chunk(pos, ReadU32(u8, pos + 4));
      ghost var _ := NextChunk(u8, seen, pos, end);
      assert TopChunks(u8)[|seen|] == c;
      chunkGuard := chunkGuard + 1;
      if chunkGuard > MAX_CHUNKS { return TooManyChunks; }
      if c.End() > end { return ChunkTooLong(pos); }
      if IsList(u8, pos) {
        r := CheckList(u8, c);
        if !r.Accepted? { return; }
      }
      seen := seen + [c];
      pos := c.Next();
    }
    assert seen + [] == seen;
    return Accepted;
  }

  // ---- what acceptance buys ----

  /** A walk's chunks follow each other, padding aside, and leave fewer than eight bytes at the end. */
  lemma {:induction false} ChunksTile(u8: seq<Byte>, pos: nat, end: nat)
    requires end <= |u8|
    ensures var cs := Chunks(u8, pos, end);
      && (cs != [] ==> cs[0].at == pos)
      && (forall i :: 0 < i < |cs| ==> cs[i].at == cs[i - 1].Next())
      && (if cs == [] then pos + 8 > end else cs[|cs| - 1].Next() + 8 > end)
      && 8 * |cs| <= (if end < pos then 0 else end - pos)
    decreases end - pos
  {
    if pos + 8 <= end {
      var c := Chunk(pos, ReadU32(u8, pos + 4));
      hide ReadU32;
      ChunksTile(u8, c.Next(), end);
      var cs, rest := Chunks(u8, pos, end), Chunks(u8, c.Next(), end);
      assert cs == [c] + rest;
      forall i | 0 < i < |cs| ensures cs[i].at == cs[i - 1].Next() {
        assert cs[i] == rest[i - 1];
      }
    }
  }

  lemma {:induction false} ChunksInOrder(cs: seq<Chunk>, i: nat, j: nat)
    requires forall k :: 0 < k < |cs| ==> cs[k].at == cs[k - 1].Next()
    requires i < j < |cs|
    ensures cs[i].End() <= cs[j].at
  {
    if i + 1 < j { ChunksInOrder(cs, i, j - 1); }
  }

  /**
   In an accepted file every walked chunk, and every sub-chunk of a LIST, lies
   inside its container; siblings stand in file order and share no byte.
   */
  lemma {:induction false} AcceptedIsNested(u8: seq<Byte>, i: nat)
    requires WellStructured(u8) && i < |TopChunks(u8)|
    ensures var c := TopChunks(u8)[i];
      && 12 <= c.at && c.End() <= RiffEnd(u8) <= |u8|
      && (forall j :: i < j < |TopChunks(u8)| ==> c.End() <= TopChunks(u8)[j].at)
      && (IsList(u8, c.at) ==> Nested(SubChunks(u8, c), c))
  {
    var cs := TopChunks(u8);
    ChunksTile(u8, 12, RiffEnd(u8));
    if i > 0 { ChunksInOrder(cs, 0, i); }
    forall j | i < j < |cs| ensures cs[i].End() <= cs[j].at { ChunksInOrder(cs, i, j); }
    assert ChunkOk(u8, cs[i], RiffEnd(u8));
    if IsList(u8, cs[i].at) { SubChunksNested(u8, cs[i]); }
  }

  /** The chunks lie inside `outer`, behind its four-byte list type, in order and disjoint. */
  ghost predicate Nested(cs: seq<Chunk>, outer: Chunk) {
    && (forall i :: 0 <= i < |cs| ==> outer.Body() + 4 <= cs[i].at && cs[i].End() <= outer.End())
    && (forall i, j :: 0 <= i < j < |cs| ==> cs[i].End() <= cs[j].at)
  }

  lemma {:induction false} SubChunksNested(u8: seq<Byte>, c: Chunk)
    requires c.End() <= |u8| && AllFit(SubChunks(u8, c), c.End())
    ensures Nested(SubChunks(u8, c), c)
  {
    var cs := SubChunks(u8, c);
    ChunksTile(u8, c.Body() + 4, c.End());
    forall i, j | 0 <= i < j < |cs| ensures cs[i].End() <= cs[j].at { ChunksInOrder(cs, i, j); }
    forall i | 0 <= i < |cs| ensures c.Body() + 4 <= cs[i].at { if i > 0 { ChunksInOrder(cs, 0, i); } }
  }

  // ---- bounding what a parser can be made to allocate ----

  function TotalSize(cs: seq<Chunk>): nat { if cs == [] then 0 else cs[0].size + TotalSize(cs[1..]) }

  /** What a chunk declares after its header: of a LIST its type word, and for each sub-chunk a header and a size. */
  function DeclaredSize(u8: seq<Byte>, c: Chunk): nat
    requires c.End() <= |u8| && c.at + 4 <= |u8|
  {
    if !IsList(u8, c.at) || c.size < 4 then c.size
    else 4 + 8 * |SubChunks(u8, c)| + TotalSize(SubChunks(u8, c))
  }

  function TotalDeclared(u8: seq<Byte>, cs: seq<Chunk>): nat
    requires forall i :: 0 <= i < |cs| ==> cs[i].End() <= |u8|
  {
    if cs == [] then 0 else 8 + DeclaredSize(u8, cs[0]) + TotalDeclared(u8, cs[1..])
  }

  lemma {:induction false} WalkFitsSpace(u8: seq<Byte>, pos: nat, end: nat)
    requires end <= |u8| && AllFit(Chunks(u8, pos, end), end)
    ensures TotalSize(Chunks(u8, pos, end)) + 8 * |Chunks(u8, pos, end)| <= (if end < pos then 0 else end - pos)
    decreases end - pos
  {
    if pos + 8 <= end {
      var c := Chunk(pos, ReadU32(u8, pos + 4));
      var cs := Chunks(u8, pos, end);
      assert cs[0] == c && cs[1..] == Chunks(u8, c.Next(), end);
      WalkFitsSpace(u8, c.Next(), end);
    }
  }

  lemma {:induction false} DeclaredFitsChunks(u8: seq<Byte>, cs: seq<Chunk>, end: nat)
    requires forall i :: 0 <= i < |cs| ==> cs[i].End() <= |u8|
    requires forall i :: 0 <= i < |cs| ==> ChunkOk(u8, cs[i], end)
    ensures TotalDeclared(u8, cs) <= TotalSize(cs) + 8 * |cs|
  {
    if cs != [] {
      var c := cs[0];
      assert ChunkOk(u8, c, end);
      if IsList(u8, c.at) { WalkFitsSpace(u8, c.Body() + 4, c.End()); }
      DeclaredFitsChunks(u8, cs[1..], end);
    }
  }

  /** All that an accepted file declares, headers and type words of both levels included, is no larger than the file. */
  lemma {:induction false} DeclaredSizeIsBounded(u8: seq<Byte>)
    requires WellStructured(u8)
    ensures forall i :: 0 <= i < |TopChunks(u8)| ==> TopChunks(u8)[i].End() <= |u8|
    ensures 12 + TotalDeclared(u8, TopChunks(u8)) <= |u8|
  {
    WalkFitsSpace(u8, 12, RiffEnd(u8));
    DeclaredFitsChunks(u8, TopChunks(u8), RiffEnd(u8));
    ChunksTile(u8, 12, RiffEnd(u8));
  }

  /** The two counters refuse only large files: eight bytes per chunk. */
  lemma {:induction false} GuardsNeedLargeFiles(u8: seq<Byte>, r: Result)
    requires Justified(u8, r) && (r.TooManyChunks? || r.TooManySubChunks?)
    ensures |u8| > if r.TooManyChunks? then 8 * MAX_CHUNKS else 8 * MAX_SUB_CHUNKS
  {
    if r.TooManyChunks? {
      ChunksTile(u8, 12, RiffEnd(u8));
    } else {
      var c :| c in TopChunks(u8) && ListWith(u8, c) && |SubChunks(u8, c)| > MAX_SUB_CHUNKS;
      ChunksTile(u8, c.Body() + 4, c.End());
    }
  }

  // ---- told by the bytes ----

  /** The limits in numbers: an accepted file has at most 100 000 chunks, and a LIST at most 2 000 000 sub-chunks. */
  lemma {:induction false} AcceptedCounts(u8: seq<Byte>)
    ensures WellStructured(u8) ==> |TopChunks(u8)| <= 100000
    ensures WellStructured(u8) ==> forall c :: c in TopChunks(u8) && ListWith(u8, c) ==> |SubChunks(u8, c)| <= 2000000
    ensures Justified(u8, TooManyChunks) ==> |TopChunks(u8)| > 100000
    ensures Justified(u8, TooManySubChunks) ==> exists c :: c in TopChunks(u8) && ListWith(u8, c) && |SubChunks(u8, c)| > 2000000
  {
    if WellStructured(u8) {
      forall c | c in TopChunks(u8) && ListWith(u8, c) ensures |SubChunks(u8, c)| <= 2000000 {
        var i :| 0 <= i < |TopChunks(u8)| && TopChunks(u8)[i] == c;
        assert ChunkOk(u8, TopChunks(u8)[i], RiffEnd(u8));
      }
    }
  }

  /** The start of a file of `size` bytes: RIFF, what follows, sfbk. */
  function RiffHeader(size: Byte): seq<Byte>
    requires size >= 8
  {
    [0x52, 0x49, 0x46, 0x46, size - 8, 0, 0, 0, 0x73, 0x66, 0x62, 0x6b]
  }

  /** The start of a LIST of `size` bytes, of one of the types INFO, sdta and pdta. */
  function ListHeader(size: Byte, c0: Byte, c1: Byte, c2: Byte, c3: Byte): seq<Byte> {
    [0x4c, 0x49, 0x53, 0x54, size, 0, 0, 0, c0, c1, c2, c3]
  }

  /** One list, whose sub-chunk phdr claims a byte more than there is. */
  function OverlongSoundfont(): seq<Byte> {
    RiffHeader(32) + ListHeader(12, 0x70, 0x64, 0x74, 0x61) + [0x70, 0x68, 0x64, 0x72, 1, 0, 0, 0]
  }

  /** What stands at `k` of a part stands at `k` behind what precedes the part. */
  lemma {:induction false} PartOf(u8: seq<Byte>, a: seq<Byte>, part: seq<Byte>, b: seq<Byte>, k: nat)
    requires u8 == a + part + b && k + 4 <= |part|
    ensures |a| + k + 4 <= |u8| && ReadU32(u8, |a| + k) == ReadU32(part, k)
    ensures u8[|a| + k] == part[k] && u8[|a| + k + 1] == part[k + 1] && u8[|a| + k + 2] == part[k + 2] && u8[|a| + k + 3] == part[k + 3]
  {
    assert u8[|a| + k..|a| + k + 4] == part[k..k + 4];
  }

  lemma {:induction false} SmallSize(part: seq<Byte>, k: nat, size: Byte)
    requires k + 4 <= |part| && part[k] == size && part[k + 1] == 0 && part[k + 2] == 0 && part[k + 3] == 0
    ensures ReadU32(part, k) == size
  {
    ReadsLowestFirst(part, k);
  }

  /** A file that starts with the header of its own size. */
  lemma {:induction false} HeaderIsFramed(size: Byte, rest: seq<Byte>)
    requires size >= 12 && |rest| == size - 12
    ensures |RiffHeader(size)| == 12 && Framed(RiffHeader(size) + rest) && RiffEnd(RiffHeader(size) + rest) == size
  {
    var head := RiffHeader(size);
    assert head + rest == [] + head + rest;
    SmallSize(head, 4, size - 8);
    PartOf(head + rest, [], head, rest, 0);
    PartOf(head + rest, [], head, rest, 4);
    PartOf(head + rest, [], head, rest, 8);
    hide ReadU32;
  }

  /** An empty list at `at` is one chunk of four bytes. */
  lemma {:induction false} EmptyListIsChunk(u8: seq<Byte>, at: nat, end: nat)
    requires at + 12 <= end <= |u8| && ReadU32(u8, at + 4) == 4
    ensures Chunks(u8, at, end) == [Chunk(at, 4)] + Chunks(u8, at + 12, end)
    ensures ChunkOk(u8, Chunk(at, 4), end)
  {
    assert Chunk(at, 4).Next() == at + 12;
    assert SubChunks(u8, Chunk(at, 4)) == [];
  }

  lemma {:induction false} ListSize(size: Byte, c0: Byte, c1: Byte, c2: Byte, c3: Byte)
    ensures var list := ListHeader(size, c0, c1, c2, c3);
      |list| == 12 && ReadU32(list, 4) == size && list[0] == 0x4c && list[1] == 0x49 && list[2] == 0x53 && list[3] == 0x54
  {
    SmallSize(ListHeader(size, c0, c1, c2, c3), 4, size);
  }

  /** The three lists of a soundfont without sub-chunks are accepted. */
  lemma {:induction false} BareSoundfontIsAccepted(head: seq<Byte>, info: seq<Byte>, sdta: seq<Byte>, pdta: seq<Byte>)
    requires head == RiffHeader(48) && info == ListHeader(4, 0x49, 0x4e, 0x46, 0x4f)
    requires sdta == ListHeader(4, 0x73, 0x64, 0x74, 0x61) && pdta == ListHeader(4, 0x70, 0x64, 0x74, 0x61)
    ensures WellStructured(head + info + sdta + pdta)
  {
    hide ReadU32, RiffHeader, ListHeader, Framed, RiffEnd, WellStructured;
    ListSize(4, 0x49, 0x4e, 0x46, 0x4f);
    ListSize(4, 0x73, 0x64, 0x74, 0x61);
    ListSize(4, 0x70, 0x64, 0x74, 0x61);
    HeaderIsFramed(48, info + sdta + pdta);
    ListsBehindHeader(head, info, sdta, pdta);
  }

  lemma {:induction false} ListsBehindHeader(head: seq<Byte>, a: seq<Byte>, b: seq<Byte>, c: seq<Byte>)
    requires |head| == |a| == |b| == |c| == 12 && ReadU32(a, 4) == ReadU32(b, 4) == ReadU32(c, 4) == 4
    requires Framed(head + (a + b + c)) && RiffEnd(head + (a + b + c)) == 48
    ensures WellStructured(head + a + b + c)
  {
    ThreeParts(head, a, b, c);
    hide *;
    ThreeListsAreAccepted(head + a + b + c);
  }

  lemma {:induction false} ThreeParts(head: seq<Byte>, a: seq<Byte>, b: seq<Byte>, c: seq<Byte>)
    requires |head| == |a| == |b| == |c| == 12
    ensures var u8 := head + a + b + c;
      && u8 == head + (a + b + c)
      && ReadU32(u8, 16) == ReadU32(a, 4) && ReadU32(u8, 28) == ReadU32(b, 4) && ReadU32(u8, 40) == ReadU32(c, 4)
  {
    var u8 := head + a + b + c;
    assert u8 == head + (a + b + c);
    assert u8 == head + a + (b + c);
    assert u8 == (head + a + b) + c + [];
    hide ReadU32;
    PartOf(u8, head, a, b + c, 4);
    PartOf(u8, head + a, b, c, 4);
    PartOf(u8, head + a + b, c, [], 4);
  }

  lemma {:induction false} ThreeListsAreAccepted(u8: seq<Byte>)
    requires |u8| == 48 && Framed(u8) && RiffEnd(u8) == 48
    requires ReadU32(u8, 16) == ReadU32(u8, 28) == ReadU32(u8, 40) == 4
    ensures WellStructured(u8)
  {
    hide ReadU32, IsList, IsRiff, IsSfbk, ChunkOk, RiffEnd;
    EmptyListIsChunk(u8, 12, 48);
    EmptyListIsChunk(u8, 24, 48);
    EmptyListIsChunk(u8, 36, 48);
    assert Chunks(u8, 48, 48) == [];
    hide Chunks;
    assert TopChunks(u8) == [Chunk(12, 4), Chunk(24, 4), Chunk(36, 4)];
  }

  /** The sub-chunk of a LIST must fit the list. */
  lemma {:induction false} OverlongListIsRefused()
    ensures !WellStructured(OverlongSoundfont())
  {
    var u8, head, list := OverlongSoundfont(), RiffHeader(32), ListHeader(12, 0x70, 0x64, 0x74, 0x61);
    var sub := [0x70, 0x68, 0x64, 0x72, 1, 0, 0, 0];
    hide ReadU32, RiffHeader, ListHeader, Framed, RiffEnd;
    ListSize(12, 0x70, 0x64, 0x74, 0x61);
    SmallSize(sub, 4, 1);
    HeaderIsFramed(32, list + sub);
    Regroup(head, list, sub);
    PartOf(u8, head, list, sub, 0);
    PartOf(u8, head, list, sub, 4);
    PartOf(u8, head + list, sub, [], 4);
    OverlongSubChunk(u8);
  }

  lemma {:induction false} Regroup(a: seq<Byte>, b: seq<Byte>, c: seq<Byte>)
    ensures a + b + c == a + (b + c) && a + b + c == (a + b) + c + []
  {
  }

  lemma {:induction false} OverlongSubChunk(u8: seq<Byte>)
    requires |u8| == 32 && Framed(u8) && RiffEnd(u8) == 32 && u8[12] == 0x4c && u8[13] == 0x49 && u8[14] == 0x53 && u8[15] == 0x54
    requires ReadU32(u8, 16) == 12 && ReadU32(u8, 28) == 1
    ensures !WellStructured(u8)
  {
    hide ReadU32, RiffEnd, Framed;
    assert IsList(u8, 12);
    assert Chunks(u8, 12, 32)[0] == Chunk(12, 12);
    assert SubChunks(u8, Chunk(12, 12))[0] == Chunk(24, 1);
  }
}
