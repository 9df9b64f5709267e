/**
 The binary preset format: a header, the zones' metadata as JSON, then the raw
 samples of all zones one after the other. A sample is a 32-bit float known by
 its bits. The JSON writer and reader are parameters.
 */
module PresetCodec {
  import opened LittleEndian
  import opened Wrappers

  /** A JSON member as JavaScript converts it to a number; NaN also stands for the infinities. */
  datatype Number = Real(value: real) | NaN

  /** A zone: its sample, if it has one, and the members that are copied through. */
  datatype Zone<M> = Zone(sample: Option<seq<Word>>, info: M)

  /** A zone in the metadata: where its sample lies in the sample area, in floats. */
  datatype MetaZone<M> = MetaZone(sampleOffset: Number, sampleLength: Number, info: M)

  /** What parsing the metadata gives: a syntax error, a value without a zones array, or the zones. */
  datatype Parsed<M> = Malformed | NoZones | Zones(zones: seq<MetaZone<M>>)

  datatype Failure = NotGmbp | BadVersion(version: int) | BadMetaLen | BadJson | MissingZones | OutOfBounds(zone: nat)
  datatype Result<M> = Ok(zones: seq<Zone<M>>) | Err(failure: Failure)

  const MAGIC: Word := 0x50_42_4d_47
  const VERSION: Word := 2
  const HEADER_BYTES := 12

  // ---- words as bytes ----

  function BytesOf(words: seq<Word>): (b: seq<Byte>)
    ensures |b| == 4 * |words|
  {
    if words == [] then [] else BytesOf(words[..|words| - 1]) + Le(words[|words| - 1])
  }

  function WordsOf(bytes: seq<Byte>): seq<Word>
    requires |bytes| % 4 == 0
  {
    if bytes == [] then [] else
      var n := |bytes| - 4;
      WordsOf(bytes[..n]) + [FromLe(bytes[n..])]
  }

  lemma {:induction false} WordsOfBytes(words: seq<Word>)
    ensures WordsOf(BytesOf(words)) == words
  {
    if words != [] {
      var init, last, b := words[..|words| - 1], words[|words| - 1], BytesOf(words);
      assert b[..|b| - 4] == BytesOf(init) && b[|b| - 4..] == Le(last);
      WordsOfBytes(init);
      LeRoundTrip(last);
    }
  }

  lemma {:induction false} BytesConcat(a: seq<Word>, b: seq<Word>)
    ensures BytesOf(a + b) == BytesOf(a) + BytesOf(b)
  {
    if b == [] {
      assert a + b == a;
    } else {
      var init := b[..|b| - 1];
      assert (a + b)[..|a + b| - 1] == a + init;
      BytesConcat(a, init);
    }
  }

  // ---- what encoding means ----

  function Sample<M>(z: Zone<M>): seq<Word> { if z.sample.Some? then z.sample.value else [] }

  function AllSamples<M>(zones: seq<Zone<M>>): seq<Word> {
    if zones == [] then [] else AllSamples(zones[..|zones| - 1]) + Sample(zones[|zones| - 1])
  }

  function MetaOf<M>(zones: seq<Zone<M>>): (meta: seq<MetaZone<M>>)
    ensures |meta| == |zones|
  {
    if zones == [] then [] else
      var init, z := zones[..|zones| - 1], zones[|zones| - 1];
      MetaOf(init) + [MetaZone(Real(|AllSamples(init)| as real), Real(|Sample(z)| as real), z.info)]
  }

  function Encoded<M>(zones: seq<Zone<M>>, stringify: seq<MetaZone<M>> -> seq<Byte>): seq<Byte>
    requires |stringify(MetaOf(zones))| < 0x1_0000_0000
  {
    var meta := stringify(MetaOf(zones));
    Le(MAGIC) + Le(VERSION) + Le(|meta|) + meta + BytesOf(AllSamples(zones))
  }

  lemma {:induction false} SamplesSplit<M>(zones: seq<Zone<M>>, k: nat)
    requires k < |zones|
    ensures AllSamples(zones[..k + 1]) == AllSamples(zones[..k]) + Sample(zones[k])
    ensures MetaOf(zones[..k + 1])
         == MetaOf(zones[..k]) + [MetaZone(Real(|AllSamples(zones[..k])| as real), Real(|Sample(zones[k])| as real), zones[k].info)]
  {
    assert zones[..k + 1][..k] == zones[..k];
  }

  /** `zones[..k]` supply the first samples of the area. */
  lemma {:induction false} SamplesPrefix<M>(zones: seq<Zone<M>>, k: nat)
    requires k <= |zones|
    ensures AllSamples(zones[..k]) <= AllSamples(zones)
    decreases |zones| - k
  {
    if k < |zones| {
      SamplesSplit(zones, k);
      SamplesPrefix(zones, k + 1);
    } else {
      assert zones[..k] == zones;
    }
  }

  /** The offset of zone `i`: the sum of the lengths before it. */
  function OffsetOf<M>(zones: seq<Zone<M>>, i: nat): nat
    requires i <= |zones|
  {
    |AllSamples(zones[..i])|
  }

  /**
   The slices tile the sample area: the first starts at 0, each starts where its
   predecessor ends, the last ends with the area, and each holds its zone's sample.
   */
  lemma {:induction false} SlicesTile<M>(zones: seq<Zone<M>>, i: nat)
    requires i < |zones|
    ensures OffsetOf(zones, 0) == 0 && OffsetOf(zones, |zones|) == |AllSamples(zones)|
    ensures OffsetOf(zones, i + 1) == OffsetOf(zones, i) + |Sample(zones[i])| <= |AllSamples(zones)|
    ensures AllSamples(zones)[OffsetOf(zones, i)..OffsetOf(zones, i + 1)] == Sample(zones[i])
    ensures MetaOf(zones)[i] == MetaZone(Real(OffsetOf(zones, i) as real), Real(|Sample(zones[i])| as real), zones[i].info)
  {
    assert zones[..|zones|] == zones;
    SamplesSplit(zones, i);
    SamplesPrefix(zones, i + 1);
    MetaAt(zones, i);
    Middle(AllSamples(zones), AllSamples(zones[..i]), Sample(zones[i]));
    hide AllSamples, MetaOf, Sample;
    assert AllSamples(zones[..0]) == [] by { NoSamples(zones); }
  }

  lemma {:induction false} Middle(all: seq<Word>, before: seq<Word>, part: seq<Word>)
    requires before + part <= all
    ensures all[|before|..|before| + |part|] == part
  {
    assert all[..|before| + |part|] == before + part;
  }

  lemma {:induction false} NoSamples<M>(zones: seq<Zone<M>>)
    ensures AllSamples(zones[..0]) == []
  {
  }

  lemma {:induction false} MetaAt<M>(zones: seq<Zone<M>>, i: nat)
    requires i < |zones|
    ensures MetaOf(zones)[i] == MetaZone(Real(OffsetOf(zones, i) as real), Real(|Sample(zones[i])| as real), zones[i].info)
  {
    var init := zones[..|zones| - 1];
    if i < |init| {
      MetaAt(init, i);
      assert init[..i] == zones[..i];
    }
  }

  // ---- encoding ----

  method CopyInto(src: seq<Byte>, out: array<Byte>, at: nat)
    requires at + |src| <= out.Length
    modifies out
    ensures out[..] == old(out[..at]) + src + old(out[at + |src|..])
  {
    for k := 0 to |src|
      invariant out[..at] == old(out[..at]) && out[at..at + k] == src[..k] && out[at + k..] == old(out[at + k..])
    {
      out[at + k] := src[k];
    }
  }

  /** The metadata loop: running offsets in `totalSamples`. */
  method CollectMeta<M>(zones: seq<Zone<M>>) returns (meta: seq<MetaZone<M>>, totalSamples: nat)
    ensures meta == MetaOf(zones) && totalSamples == |AllSamples(zones)|
  {
    meta, totalSamples := [], 0;
    for i := 0 to |zones|
      invariant meta == MetaOf(zones[..i]) && totalSamples == |AllSamples(zones[..i])|
    {
      SamplesSplit(zones, i);
      var z := zones[i];
      var len := if z.sample.Some? then |z.sample.value| else 0;
      meta := meta + [MetaZone(Real(totalSamples as real), Real(len as real), z.info)];
      totalSamples := totalSamples + len;
    }
    assert zones[..|zones|] == zones;
  }

  /** One zone's sample; a zone without samples is skipped. */
  method CopySample<M>(z: Zone<M>, out: array<Byte>, off: nat) returns (next: nat)
    requires off + 4 * |Sample(z)| <= out.Length
    modifies out
    ensures next == off + 4 * |Sample(z)| && out[..next] == old(out[..off]) + BytesOf(Sample(z))
  {
    next := off;
    if z.sample.Some? && z.sample.value != [] {
      var src := BytesOf(z.sample.value);
      CopyInto(src, out, off);
      next := off + |src|;
    }
  }

  /** The bytes of the first zones' samples. */
  function SampleBytes<M>(zones: seq<Zone<M>>, k: nat): seq<Byte>
    requires k <= |zones|
  {
    BytesOf(AllSamples(zones[..k]))
  }

  lemma {:induction false} SampleBytesGrow<M>(zones: seq<Zone<M>>, k: nat)
    requires k < |zones|
    ensures SampleBytes(zones, k + 1) == SampleBytes(zones, k) + BytesOf(Sample(zones[k]))
    ensures |SampleBytes(zones, k)| + 4 * |Sample(zones[k])| <= |SampleBytes(zones, |zones|)|
  {
    SamplesSplit(zones, k);
    SamplesPrefix(zones, k + 1);
    BytesConcat(AllSamples(zones[..k]), Sample(zones[k]));
    assert zones[..|zones|] == zones;
  }

  method CopySamples<M>(zones: seq<Zone<M>>, out: array<Byte>, start: nat)
    requires start + |SampleBytes(zones, |zones|)| == out.Length
    modifies out
    ensures out[..] == old(out[..start]) + SampleBytes(zones, |zones|)
  {
    var off := start;
    assert SampleBytes(zones, 0) == [];
    hide SampleBytes, BytesOf, Sample;
    for i := 0 to |zones|
      invariant off == start + |SampleBytes(zones, i)| <= out.Length
      invariant out[..off] == old(out[..start]) + SampleBytes(zones, i)
    {
      SampleBytesGrow(zones, i);
      off := CopySample(zones[i], out, off);
    }
  }

  /** Encoding fails only when the metadata is too long for its 32-bit length field. */
  method EncodePreset<M>(zones: seq<Zone<M>>, stringify: seq<MetaZone<M>> -> seq<Byte>) returns (ok: bool, out: array<Byte>)
    ensures ok <==> |stringify(MetaOf(zones))| < 0x1_0000_0000
    ensures ok ==> fresh(out) && out[..] == Encoded(zones, stringify)
  {
    var metaZones, totalSamples := CollectMeta(zones);
    var meta := stringify(metaZones);
    out := new Byte[HEADER_BYTES + |meta| + totalSamples * 4];
    if |meta| >= 0x1_0000_0000 { return false, out; }
    CopyInto(Le(MAGIC), out, 0);
    CopyInto(Le(VERSION), out, 4);
    CopyInto(Le(|meta|), out, 8);
    assert out[..HEADER_BYTES] == Le(MAGIC) + Le(VERSION) + Le(|meta|);
    CopyInto(meta, out, HEADER_BYTES);
    assert out[..HEADER_BYTES + |meta|] == Le(MAGIC) + Le(VERSION) + Le(|meta|) + meta;
    assert SampleBytes(zones, |zones|) == BytesOf(AllSamples(zones)) by { assert zones[..|zones|] == zones; }
    CopySamples(zones, out, HEADER_BYTES + |meta|);
    ok := true;
  }

  // ---- decoding ----

  predicate LooksLikeBinaryPreset(buf: seq<Byte>) {
    |buf| >= HEADER_BYTES && buf[0] == 0x47 && buf[1] == 0x4d && buf[2] == 0x42 && buf[3] == 0x50
  }

  /** Toward zero. */
  function Truncate(r: real): int { if r >= 0.0 then r.Floor else -(-r).Floor }

  /** The bitwise-or-zero of JavaScript: truncation, then the low 32 bits as a signed number. */
  function ToInt32(n: Number): (i: int)
    ensures -0x8000_0000 <= i < 0x8000_0000
  {
    if n.NaN? then 0 else
      var low := Truncate(n.value) % 0x1_0000_0000;
      if low >= 0x8000_0000 then low - 0x1_0000_0000 else low
  }

  /** Whole numbers convert to themselves below 2^31 and turn negative when bit 31 is set. */
  lemma {:induction false} ToInt32OfNat(n: nat)
    ensures n < 0x8000_0000 ==> ToInt32(Real(n as real)) == n
    ensures n % 0x1_0000_0000 >= 0x8000_0000 ==> ToInt32(Real(n as real)) < 0
  {
    assert Truncate(n as real) == n;
  }

  predicate InBounds<M>(z: MetaZone<M>, area: seq<Byte>) {
    && ToInt32(z.sampleLength) >= 0 && ToInt32(z.sampleOffset) >= 0
    && (ToInt32(z.sampleOffset) + ToInt32(z.sampleLength)) * 4 <= |area|
  }

  function DecodeZone<M>(z: MetaZone<M>, area: seq<Byte>): Zone<M>
    requires InBounds(z, area)
  {
    var from := ToInt32(z.sampleOffset) * 4;
    var slice := area[from..from + ToInt32(z.sampleLength) * 4];
    Zone(Some(WordsOf(slice)), z.info)
  }

  function DecodeZones<M>(zones: seq<MetaZone<M>>, area: seq<Byte>): Result<M> {
    if zones == [] then Ok([]) else
      var init := DecodeZones(zones[..|zones| - 1], area);
      if init.Err? then init
      else if !InBounds(zones[|zones| - 1], area) then Err(OutOfBounds(|zones| - 1))
      else Ok(init.zones + [DecodeZone(zones[|zones| - 1], area)])
  }

  function DecodePreset<M>(buf: seq<Byte>, parse: seq<Byte> -> Parsed<M>): Result<M> {
    if !LooksLikeBinaryPreset(buf) then Err(NotGmbp)
    else if ReadU32(buf, 4) != VERSION then Err(BadVersion(ReadU32(buf, 4)))
    else
      var metaLen := ReadU32(buf, 8);
      if HEADER_BYTES + metaLen > |buf| then Err(BadMetaLen)
      else
        var base := HEADER_BYTES + metaLen;
        match parse(buf[HEADER_BYTES..base])
        case Malformed => Err(BadJson)
        case NoZones => Err(MissingZones)
        case Zones(zones) => DecodeZones(zones, buf[base..])
  }

  ghost predicate NamesFirstBad<M>(zones: seq<MetaZone<M>>, area: seq<Byte>, failure: Failure) {
    && failure.OutOfBounds? && failure.zone < |zones| && !InBounds(zones[failure.zone], area)
    && forall i :: 0 <= i < failure.zone ==> InBounds(zones[i], area)
  }

  /** Decoding zones succeeds exactly when all are in bounds; otherwise it names the first that is not. */
  lemma {:induction false} ZonesDecode<M>(zones: seq<MetaZone<M>>, area: seq<Byte>)
    ensures DecodeZones(zones, area).Ok? <==> forall i :: 0 <= i < |zones| ==> InBounds(zones[i], area)
    ensures DecodeZones(zones, area).Ok? ==> |DecodeZones(zones, area).zones| == |zones|
    ensures DecodeZones(zones, area).Ok? ==>
              forall i :: 0 <= i < |zones| ==> InBounds(zones[i], area) && DecodeZones(zones, area).zones[i] == DecodeZone(zones[i], area)
    ensures DecodeZones(zones, area).Err? ==> NamesFirstBad(zones, area, DecodeZones(zones, area).failure)
  {
    hide InBounds, DecodeZone;
    if zones != [] {
      var init := zones[..|zones| - 1];
      ZonesDecode(init, area);
      assert forall i :: 0 <= i < |init| ==> zones[i] == init[i];
    }
  }

  /** `out` is zone `z`, read from inside the sample area that starts at `base`. */
  ghost predicate ReadInside<M>(z: MetaZone<M>, buf: seq<Byte>, base: nat, out: Zone<M>) {
    var from := base + 4 * ToInt32(z.sampleOffset);
    var to := from + 4 * ToInt32(z.sampleLength);
    base <= from <= to <= |buf| && out == Zone(Some(WordsOf(buf[from..to])), z.info)
  }

  lemma {:induction false} SliceIsInside<M>(z: MetaZone<M>, buf: seq<Byte>, base: nat)
    requires base <= |buf| && InBounds(z, buf[base..])
    ensures ReadInside(z, buf, base, DecodeZone(z, buf[base..]))
  {
    hide ToInt32;
    var from := 4 * ToInt32(z.sampleOffset);
    var to := from + 4 * ToInt32(z.sampleLength);
    assert buf[base..][from..to] == buf[base + from..base + to];
  }

  /**
   Whatever the bytes, and whatever the metadata claims: an accepted input has
   every zone's slice inside the buffer, behind the metadata.
   */
  lemma {:induction false} AcceptedSlicesAreInBounds<M>(buf: seq<Byte>, parse: seq<Byte> -> Parsed<M>)
    returns (base: nat, meta: seq<MetaZone<M>>)
    requires DecodePreset(buf, parse).Ok?
    ensures LooksLikeBinaryPreset(buf) && ReadU32(buf, 4) == VERSION
    ensures base == HEADER_BYTES + ReadU32(buf, 8) <= |buf| && parse(buf[HEADER_BYTES..base]) == Zones(meta)
    ensures |meta| == |DecodePreset(buf, parse).zones|
    ensures forall i :: 0 <= i < |meta| ==> ReadInside(meta[i], buf, base, DecodePreset(buf, parse).zones[i])
  {
    base := HEADER_BYTES + ReadU32(buf, 8);
    meta := parse(buf[HEADER_BYTES..base]).zones;
    ZonesDecode(meta, buf[base..]);
    forall i | 0 <= i < |meta| ensures ReadInside(meta[i], buf, base, DecodePreset(buf, parse).zones[i]) {
      SliceIsInside(meta[i], buf, base);
    }
  }

  // ---- the round trip ----

  /** The JSON reader undoes the writer on this preset's metadata, and the metadata fits its length field. */
  ghost predicate Serializable<M>(zones: seq<Zone<M>>, stringify: seq<MetaZone<M>> -> seq<Byte>, parse: seq<Byte> -> Parsed<M>) {
    var meta := stringify(MetaOf(zones));
    |meta| < 0x1_0000_0000 && parse(meta) == Zones(MetaOf(zones))
  }

  /** A zone as decoding gives it: a missing sample has become an empty one. */
  function Explicit<M>(zones: seq<Zone<M>>): seq<Zone<M>> {
    seq(|zones|, i requires 0 <= i < |zones| => Zone(Some(Sample(zones[i])), zones[i].info))
  }

  /** Every zone's offset and length fits a signed 32-bit number. */
  ghost predicate Addressable<M>(zones: seq<Zone<M>>) {
    forall i :: 0 <= i < |zones| ==> OffsetOf(zones, i) < 0x8000_0000 && |Sample(zones[i])| < 0x8000_0000
  }

  lemma {:induction false} HeaderDecodes<M>(zones: seq<Zone<M>>, stringify: seq<MetaZone<M>> -> seq<Byte>, parse: seq<Byte> -> Parsed<M>)
    requires Serializable(zones, stringify, parse)
    ensures DecodePreset(Encoded(zones, stringify), parse) == DecodeZones(MetaOf(zones), BytesOf(AllSamples(zones)))
  {
    var meta := stringify(MetaOf(zones));
    LeRoundTrip(VERSION);
    LeRoundTrip(|meta|);
    assert Le(MAGIC) == [0x47, 0x4d, 0x42, 0x50];
    hide Le, FromLe, BytesOf, AllSamples, MetaOf, DecodeZones;
    FieldsOf(Le(MAGIC), Le(VERSION), Le(|meta|), meta, BytesOf(AllSamples(zones)));
  }

  lemma {:induction false} FieldsOf(magic: seq<Byte>, version: seq<Byte>, metaLen: seq<Byte>, meta: seq<Byte>, area: seq<Byte>)
    requires |magic| == |version| == |metaLen| == 4
    ensures var buf := magic + version + metaLen + meta + area;
      && |buf| >= HEADER_BYTES + |meta| && buf[..4] == magic && buf[4..8] == version && buf[8..12] == metaLen
      && buf[HEADER_BYTES..HEADER_BYTES + |meta|] == meta && buf[HEADER_BYTES + |meta|..] == area
      && forall i :: 0 <= i < 4 ==> buf[i] == magic[i]
  {
  }

  lemma {:induction false} SliceOfBytes(words: seq<Word>, from: nat, to: nat)
    requires from <= to <= |words|
    ensures BytesOf(words)[4 * from..4 * to] == BytesOf(words[from..to])
  {
    assert words == words[..from] + words[from..to] + words[to..];
    BytesConcat(words[..from] + words[from..to], words[to..]);
    BytesConcat(words[..from], words[from..to]);
  }

  lemma {:induction false} ZoneDecodes<M>(zones: seq<Zone<M>>, i: nat)
    requires i < |zones| && OffsetOf(zones, i) < 0x8000_0000 && |Sample(zones[i])| < 0x8000_0000
    ensures InBounds(MetaOf(zones)[i], BytesOf(AllSamples(zones)))
    ensures DecodeZone(MetaOf(zones)[i], BytesOf(AllSamples(zones))) == Zone(Some(Sample(zones[i])), zones[i].info)
  {
    SlicesTile(zones, i);
    SliceOfBytes(AllSamples(zones), OffsetOf(zones, i), OffsetOf(zones, i + 1));
    WordsOfBytes(Sample(zones[i]));
    ToInt32OfNat(OffsetOf(zones, i));
    ToInt32OfNat(|Sample(zones[i])|);
    var from, to := OffsetOf(zones, i), OffsetOf(zones, i + 1);
    hide ToInt32, AllSamples, MetaOf, BytesOf, WordsOf, OffsetOf, Sample;
    SliceDecodes(MetaOf(zones)[i], BytesOf(AllSamples(zones)), from, to, Sample(zones[i]));
  }

  lemma {:induction false} SliceDecodes<M>(z: MetaZone<M>, area: seq<Byte>, from: nat, to: nat, sample: seq<Word>)
    requires from <= to && 4 * to <= |area| && area[4 * from..4 * to] == BytesOf(sample) && WordsOf(BytesOf(sample)) == sample
    requires ToInt32(z.sampleOffset) == from && ToInt32(z.sampleLength) == to - from
    ensures InBounds(z, area)
    ensures DecodeZone(z, area) == Zone(Some(sample), z.info)
  {
  }

  /** Decoding what was encoded gives every zone back, bit for bit. */
  lemma {:induction false} RoundTrip<M>(zones: seq<Zone<M>>, stringify: seq<MetaZone<M>> -> seq<Byte>, parse: seq<Byte> -> Parsed<M>)
    requires Serializable(zones, stringify, parse)
    requires Addressable(zones)
    ensures DecodePreset(Encoded(zones, stringify), parse) == Ok(Explicit(zones))
  {
    HeaderDecodes(zones, stringify, parse);
    var meta, area := MetaOf(zones), BytesOf(AllSamples(zones));
    ZonesDecode(meta, area);
    forall i | 0 <= i < |zones|
      ensures InBounds(meta[i], area) && DecodeZone(meta[i], area) == Explicit(zones)[i]
    {
      ZoneDecodes(zones, i);
    }
  }

  /** The 32-bit conversion of the offsets: a preset with a zone at or past 2^31 floats is refused. */
  lemma {:induction false} HugeOffsetIsRefused<M>(zones: seq<Zone<M>>, stringify: seq<MetaZone<M>> -> seq<Byte>,
                                                  parse: seq<Byte> -> Parsed<M>, i: nat)
    requires Serializable(zones, stringify, parse)
    requires i < |zones|
    requires OffsetOf(zones, i) % 0x1_0000_0000 >= 0x8000_0000 || |Sample(zones[i])| % 0x1_0000_0000 >= 0x8000_0000
    ensures DecodePreset(Encoded(zones, stringify), parse).Err?
  {
    HeaderDecodes(zones, stringify, parse);
    SlicesTile(zones, i);
    ToInt32OfNat(OffsetOf(zones, i));
    ToInt32OfNat(|Sample(zones[i])|);
    ZonesDecode(MetaOf(zones), BytesOf(AllSamples(zones)));
    assert !InBounds(MetaOf(zones)[i], BytesOf(AllSamples(zones)));
  }

  /** Up to 16 GiB of samples, a preset survives exactly when all its offsets and lengths are below 2^31. */
  lemma {:induction false} RoundTripExactly<M>(zones: seq<Zone<M>>, stringify: seq<MetaZone<M>> -> seq<Byte>,
                                               parse: seq<Byte> -> Parsed<M>)
    requires Serializable(zones, stringify, parse)
    requires |AllSamples(zones)| < 0x1_0000_0000
    ensures DecodePreset(Encoded(zones, stringify), parse) == Ok(Explicit(zones)) <==> Addressable(zones)
  {
    hide AllSamples, MetaOf, DecodePreset, Encoded, Explicit;
    if Addressable(zones) {
      RoundTrip(zones, stringify, parse);
    } else {
      var i :| 0 <= i < |zones| && !(OffsetOf(zones, i) < 0x8000_0000 && |Sample(zones[i])| < 0x8000_0000);
      SlicesTile(zones, i);
      HugeOffsetIsRefused(zones, stringify, parse, i);
    }
  }

  /** Every preset with fewer than 2^31 samples in all survives. */
  lemma {:induction false} SmallPresetsRoundTrip<M>(zones: seq<Zone<M>>, stringify: seq<MetaZone<M>> -> seq<Byte>,
                                                    parse: seq<Byte> -> Parsed<M>)
    requires Serializable(zones, stringify, parse) && |AllSamples(zones)| < 0x8000_0000
    ensures DecodePreset(Encoded(zones, stringify), parse) == Ok(Explicit(zones))
  {
    hide AllSamples, MetaOf, DecodePreset, Encoded, Explicit, Serializable;
    forall i | 0 <= i < |zones| ensures OffsetOf(zones, i) < 0x8000_0000 && |Sample(zones[i])| < 0x8000_0000 {
      SlicesTile(zones, i);
    }
    RoundTrip(zones, stringify, parse);
  }

  /** The first twelve bytes: the letters GMBP, version 2, and the length of the metadata. */
  lemma {:induction false} HeaderLayout<M>(zones: seq<Zone<M>>, stringify: seq<MetaZone<M>> -> seq<Byte>)
    requires |stringify(MetaOf(zones))| < 0x1_0000_0000
    ensures var out, n := Encoded(zones, stringify), |stringify(MetaOf(zones))|;
      && |out| == 12 + n + 4 * |AllSamples(zones)| && out[12..12 + n] == stringify(MetaOf(zones))
      && out[..8] == ['G' as int, 'M' as int, 'B' as int, 'P' as int, 2, 0, 0, 0]
      && n == out[8] as int + 256 * out[9] as int + 65536 * out[10] as int + 16777216 * out[11] as int
  {
    var meta, area := stringify(MetaOf(zones)), BytesOf(AllSamples(zones));
    LengthField(|meta|);
    MagicAndVersion();
    hide Le, FromLe, MetaOf, AllSamples, BytesOf;
    FieldsOf(Le(MAGIC), Le(VERSION), Le(|meta|), meta, area);
    HeaderBytes(Le(MAGIC), Le(VERSION), Le(|meta|), meta, area);
  }

  lemma {:induction false} MagicAndVersion()
    ensures Le(MAGIC) + Le(VERSION) == ['G' as int, 'M' as int, 'B' as int, 'P' as int, 2, 0, 0, 0]
  {
  }

  lemma {:induction false} LengthField(n: Word)
    ensures n == Le(n)[0] as int + 256 * Le(n)[1] as int + 65536 * Le(n)[2] as int + 16777216 * Le(n)[3] as int
  {
    LeRoundTrip(n);
  }

  lemma {:induction false} HeaderBytes(magic: seq<Byte>, version: seq<Byte>, metaLen: seq<Byte>, meta: seq<Byte>, area: seq<Byte>)
    requires |magic| == |version| == |metaLen| == 4
    ensures var buf := magic + version + metaLen + meta + area;
      && buf[..8] == magic + version
      && buf[8] == metaLen[0] && buf[9] == metaLen[1] && buf[10] == metaLen[2] && buf[11] == metaLen[3]
  {
  }

  /** Behind the metadata stand the samples, four bytes each, the lowest first. */
  lemma {:induction false} SampleLayout<M>(zones: seq<Zone<M>>, stringify: seq<MetaZone<M>> -> seq<Byte>, i: nat)
    requires |stringify(MetaOf(zones))| < 0x1_0000_0000 && i < |AllSamples(zones)|
    ensures var out, o := Encoded(zones, stringify), 12 + |stringify(MetaOf(zones))| + 4 * i;
      && o + 4 <= |out|
      && AllSamples(zones)[i] == out[o] as int + 256 * out[o + 1] as int + 65536 * out[o + 2] as int + 16777216 * out[o + 3] as int
  {
    var meta, area := stringify(MetaOf(zones)), BytesOf(AllSamples(zones));
    var head := Le(MAGIC) + Le(VERSION) + Le(|meta|) + meta;
    assert |head| == 12 + |meta| && Encoded(zones, stringify) == head + area;
    hide Encoded, AllSamples, BytesOf, MetaOf, Le;
    WordAt(AllSamples(zones), i);
    Behind(head, area, 4 * i);
  }

  lemma {:induction false} Behind(head: seq<Byte>, area: seq<Byte>, k: nat)
    requires k + 4 <= |area|
    ensures (head + area)[|head| + k] == area[k] && (head + area)[|head| + k + 1] == area[k + 1]
    ensures (head + area)[|head| + k + 2] == area[k + 2] && (head + area)[|head| + k + 3] == area[k + 3]
  {
  }

  lemma {:induction false} WordAt(words: seq<Word>, i: nat)
    requires i < |words|
    ensures var b := BytesOf(words);
      words[i] == b[4 * i] as int + 256 * b[4 * i + 1] as int + 65536 * b[4 * i + 2] as int + 16777216 * b[4 * i + 3] as int
  {
    var n := |words| - 1;
    if i < n {
      WordAt(words[..n], i);
    } else {
      LeRoundTrip(words[n]);
      assert BytesOf(words)[4 * n..] == Le(words[n]);
    }
  }

  /** The bitwise conversion: what is no number becomes 0, and what lies within 32 bits loses its fraction, toward zero. */
  lemma {:induction false} ToInt32Truncates(r: real)
    ensures ToInt32(NaN) == 0
    ensures 0.0 <= r < 2147483648.0 ==> ToInt32(Real(r)) as real <= r < ToInt32(Real(r)) as real + 1.0
    ensures -2147483649.0 < r <= 0.0 ==> ToInt32(Real(r)) as real - 1.0 < r <= ToInt32(Real(r)) as real
  {
  }

  /** Beyond, it repeats every 2^32. */
  lemma {:induction false} ToInt32Repeats(n: int)
    ensures ToInt32(Real((n + 4294967296) as real)) == ToInt32(Real(n as real))
  {
    assert Truncate(n as real) == n && Truncate((n + 4294967296) as real) == n + 4294967296;
  }
}
