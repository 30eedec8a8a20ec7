/**
 The encoder: choice of version and level, the padded data codewords, the finished symbol; and
 the theorem that a reader of the symbol gets back what was encoded.
 */
module Encoder {
  import opened Results
  import opened Bits
  import opened Grids
  import opened Tables
  import opened Interleaving
  import opened Patterns
  import opened Zigzag
  import opened DataArea
  import opened Symbol
  import opened QrCodes
  import opened Segments
  import opened BitStream

  // ---------- version and level ----------

  function Capacity(ver: int, ecl: Ecc): nat
    requires IsVersion(ver)
  {
    var l := LayoutOf(ver, ecl);
    NumDataCodewords(ver, ecl) * 8
  }

  /** The segments fit a symbol of this version and level. */
  ghost predicate Suits(segs: seq<Segment>, ver: int, ecl: Ecc)
    requires IsVersion(ver)
  {
    TotalBits(segs, ver) != -1 && TotalBits(segs, ver) <= Capacity(ver, ecl)
  }

  /** The smallest version of the range that suits. */
  ghost predicate IsVersionFor(segs: seq<Segment>, ecl: Ecc, minVersion: int, maxVersion: int, ver: int)
    requires MIN_VERSION <= minVersion && maxVersion <= MAX_VERSION
  {
    && minVersion <= ver <= maxVersion
    && Suits(segs, ver, ecl)
    && forall v :: minVersion <= v < ver ==> !Suits(segs, v, ecl)
  }

  /** The level the symbol gets: with boosting the highest that suits, and never below the one asked for. */
  ghost predicate IsLevelFor(segs: seq<Segment>, ver: int, asked: Ecc, boost: bool, level: Ecc)
    requires IsVersion(ver)
  {
    && Suits(segs, ver, level)
    && asked.Ordinal() <= level.Ordinal()
    && (boost ==> forall e: Ecc :: Suits(segs, ver, e) ==> e.Ordinal() <= level.Ordinal())
    && (!boost ==> level == asked)
  }

  /** Tries the versions of the range from the smallest up. */
  method FindVersion(segs: seq<Segment>, ecl: Ecc, minVersion: int, maxVersion: int) returns (version: int, dataUsedBits: int)
    requires MIN_VERSION <= minVersion <= maxVersion <= MAX_VERSION
    ensures dataUsedBits == -1 ==> forall v :: minVersion <= v <= maxVersion ==> !Suits(segs, v, ecl)
    ensures dataUsedBits != -1 ==>
      IsVersionFor(segs, ecl, minVersion, maxVersion, version) && dataUsedBits == TotalBits(segs, version)
  {
    hide TotalBits, NumDataCodewords, LayoutOf;
    version := minVersion;
    while true
      invariant minVersion <= version <= maxVersion
      invariant forall v :: minVersion <= v < version ==> !Suits(segs, v, ecl)
      decreases maxVersion - version
    {
      var dataCapacityBits := Capacity(version, ecl);
      dataUsedBits := GetTotalBits(segs, version);
      if dataUsedBits != -1 && dataUsedBits <= dataCapacityBits {
        return;
      }
      if version >= maxVersion {
        return version, -1;
      }
      version := version + 1;
    }
  }

  /** Raises the level as far as the data still fits. */
  method BoostLevel(segs: seq<Segment>, version: int, asked: Ecc, boostEcl: bool, dataUsedBits: int) returns (ecl: Ecc)
    requires IsVersion(version) && Suits(segs, version, asked) && dataUsedBits == TotalBits(segs, version)
    ensures IsLevelFor(segs, version, asked, boostEcl, ecl)
  {
    hide TotalBits, NumDataCodewords, LayoutOf;
    ecl := asked;
    var levels := [MEDIUM, QUARTILE, HIGH];
    for i := 0 to 3
      invariant Suits(segs, version, ecl)
      invariant !boostEcl ==> ecl == asked
      invariant ecl.Ordinal() <= i || ecl == asked
      invariant asked.Ordinal() <= i ==> asked.Ordinal() <= ecl.Ordinal() <= i || !boostEcl
      invariant boostEcl ==> forall e: Ecc :: e.Ordinal() <= i && Suits(segs, version, e) && asked.Ordinal() <= i ==> e.Ordinal() <= ecl.Ordinal()
    {
      var newEcl := levels[i];
      assert newEcl.Ordinal() == i + 1;
      if boostEcl && dataUsedBits <= Capacity(version, newEcl) {
        ecl := newEcl;
      }
    }
    assert forall e: Ecc :: e.Ordinal() <= 3;
  }

  // ---------- data codewords ----------

  /** The data codewords of the segments. */
  ghost function DataCodewordsOf(segs: seq<Segment>, ver: int, ecl: Ecc): (data: seq<Byte>)
    requires IsVersion(ver) && Suits(segs, ver, ecl)
    ensures |data| == NumDataCodewords(ver, ecl)
  {
    BytesOf(Pad(Stream(segs, ver), Capacity(ver, ecl)))
  }

  /** Concatenates the segments; every header field fits, so no bits are lost. */
  method Concatenate(segs: seq<Segment>, ver: nat) returns (bb: BitBuffer)
    requires CountsFit(segs, ver)
    ensures fresh(bb) && bb.bits == Stream(segs, ver)
  {
    hide Stream, Pow2, ToBits;
    bb := new BitBuffer();
    SmallPowers();
    EmptyStream(ver);
    assert segs[..0] == [];
    for i := 0 to |segs|
      invariant fresh(bb) && bb.bits == Stream(segs[..i], ver)
    {
      var seg := segs[i];
      assert segs[..i + 1] == segs[..i] + [seg];
      StreamSnoc(segs[..i], seg, ver);
      ghost var before := bb.bits;
      var ok := bb.AppendBits(seg.mode.ModeBits(), 4);
      ok := bb.AppendBits(seg.numChars, seg.mode.CountBits(ver));
      bb.bits := bb.bits + seg.data;
      assert bb.bits == before + SegmentBits(seg, ver);
    }
    assert segs[..|segs|] == segs;
  }

  lemma {:induction false} PadToggles()
    ensures Xor(0xEC, Xor(0xEC, 0x11)) == 0x11
    ensures Xor(0x11, Xor(0xEC, 0x11)) == 0xEC
  {
    hide Xor;
    XorCancels(0x11, 0xEC);
    XorCommutes(0xEC, 0x11);
    XorCancels(0xEC, 0x11);
  }

  /** Terminates and pads the buffer up to its capacity, which padding meets exactly. */
  method PadBuffer(bb: BitBuffer, capacity: nat)
    requires |bb.bits| <= capacity && capacity % 8 == 0
    modifies bb
    ensures bb.bits == Pad(old(bb.bits), capacity)
  {
    hide Fill;
    var n := Terminator(|bb.bits|, capacity);
    AppendZeros(bb, n);
    PadAligns(|bb.bits|, capacity);
    var m := (8 - |bb.bits| % 8) % 8;
    AppendZeros(bb, m);
    FillBuffer(bb, capacity);
  }

  /** Appends alternating bytes until the capacity is reached. */
  method FillBuffer(bb: BitBuffer, capacity: nat)
    requires |bb.bits| <= capacity && |bb.bits| % 8 == 0 && capacity % 8 == 0
    modifies bb
    ensures bb.bits == Fill(old(bb.bits), capacity, 0xEC)
  {
    hide ToBits, Fill, Xor, Pow2;
    SmallPowers();
    PadToggles();
    ghost var aligned := bb.bits;
    var padByte := 0xEC;
    while |bb.bits| < capacity
      invariant |bb.bits| <= capacity && |bb.bits| % 8 == 0
      invariant padByte == 0xEC || padByte == 0x11
      invariant Fill(aligned, capacity, 0xEC) == Fill(bb.bits, capacity, padByte)
      decreases capacity - |bb.bits|
    {
      ghost var longer := bb.bits + ToBits(padByte, 8);
      FillStep(bb.bits, capacity, padByte);
      var ok := bb.AppendBits(padByte, 8);
      assert bb.bits == longer;
      padByte := Xor(padByte, Xor(0xEC, 0x11));
    }
    FillEnds(bb.bits, padByte);
  }

  lemma {:induction false} FillStep(bits: seq<bool>, capacity: nat, pad: Byte)
    requires |bits| < capacity && |bits| % 8 == 0 && capacity % 8 == 0
    ensures |bits| + 8 <= capacity && (|bits| + 8) % 8 == 0
    ensures Fill(bits, capacity, pad) == Fill(bits + ToBits(pad, 8), capacity, if pad == 0xEC then 0x11 else 0xEC)
  {
  }

  lemma {:induction false} FillEnds(bits: seq<bool>, pad: Byte)
    requires |bits| % 8 == 0
    ensures Fill(bits, |bits|, pad) == bits
  {
  }

  method AppendZeros(bb: BitBuffer, n: nat)
    requires n <= 31
    modifies bb
    ensures bb.bits == old(bb.bits) + Zeros(n)
  {
    hide ToBits, Pow2;
    ToZeros(n);
    var ok := bb.AppendBits(0, n);
  }

  /** What byte `i / 8` holds once the first `i` bits are packed. */
  function Partial(bits: seq<bool>, i: nat): nat
    requires i <= |bits|
  {
    FromBits(bits[i - i % 8..i] + Zeros(8 - i % 8))
  }

  lemma {:induction false} PartialStarts(bits: seq<bool>, i: nat)
    requires i <= |bits| && i % 8 == 0
    ensures Partial(bits, i) == 0
  {
    hide FromBits;
    ZerosDenoteZero(8);
    assert bits[i..i] + Zeros(8) == Zeros(8);
  }

  lemma {:induction false} ByteGrows(front: seq<bool>, b: bool, n: nat)
    requires |front| + 1 + n == 8
    ensures FromBits(front + Zeros(n + 1)) + (if b then Pow2(n) else 0) == FromBits(front + [b] + Zeros(n)) < 256
  {
    hide FromBits, Pow2;
    SmallPowers();
    SetBit(front, b, n);
    assert front + [false] + Zeros(n) == front + Zeros(n + 1);
    ToFromBits(front + [b] + Zeros(n));
  }

  /** Packing one more bit sets it in the byte it belongs to. */
  lemma {:induction false} PartialStep(bits: seq<bool>, i: nat, j: nat)
    requires i < |bits| && j == i % 8
    ensures var next := Partial(bits, i) + (if bits[i] then Pow2(7 - j) else 0);
            next < 256 && next == if j == 7 then FromBits(bits[i - 7..i + 1]) else Partial(bits, i + 1)
  {
    hide FromBits, Pow2, Zeros, Partial;
    var start := i - j;
    var front := bits[start..i];
    PartialAt(bits, start, j);
    ByteGrows(front, bits[i], 7 - j);
    assert front + [bits[i]] == bits[start..i + 1];
    if j == 7 {
      assert front + [bits[i]] + Zeros(0) == front + [bits[i]];
    } else {
      PartialAt(bits, start, j + 1);
    }
  }

  lemma {:induction false} PartialAt(bits: seq<bool>, start: nat, j: nat)
    requires start % 8 == 0 && j < 8 && start + j <= |bits|
    ensures Partial(bits, start + j) == FromBits(bits[start..start + j] + Zeros(8 - j))
  {
    hide FromBits, Zeros;
    assert (start + j) % 8 == j;
  }

  /** Packs bits into bytes, the first bit of each byte highest. */
  method PackBytes(bits: seq<bool>) returns (data: seq<Byte>)
    requires |bits| % 8 == 0
    ensures data == BytesOf(bits)
  {
    hide FromBits, Pow2, BytesOf, Partial;
    var codewords := new Byte[|bits| / 8](_ => 0);
    for i := 0 to |bits|
      invariant forall k :: 0 <= k < i / 8 ==> codewords[k] == FromBits(bits[8 * k..8 * k + 8])
      invariant i % 8 != 0 ==> codewords[i / 8] == Partial(bits, i)
      invariant forall k :: (i + 7) / 8 <= k < |bits| / 8 ==> codewords[k] == 0
    {
      PartialStep(bits, i, i % 8);
      if i % 8 == 0 {
        PartialStarts(bits, i);
      }
      codewords[i / 8] := codewords[i / 8] + (if bits[i] then Pow2(7 - i % 8) else 0);
    }
    BytesOfIndex(bits);
    data := codewords[..];
  }

  lemma {:induction false} ZerosDenoteZero(n: nat)
    ensures FromBits(Zeros(n)) == 0
  {
    if n != 0 {
      ZerosDenoteZero(n - 1);
      assert Zeros(n)[..n - 1] == Zeros(n - 1);
    }
  }

  /** Setting a bit that was zero adds its weight. */
  lemma {:induction false} SetBit(front: seq<bool>, b: bool, n: nat)
    ensures FromBits(front + [b] + Zeros(n)) == FromBits(front + [false] + Zeros(n)) + (if b then Pow2(n) else 0)
  {
    if n == 0 {
      assert (front + [b] + Zeros(0))[..|front|] == front;
      assert (front + [false] + Zeros(0))[..|front|] == front;
    } else {
      SetBit(front, b, n - 1);
      assert (front + [b] + Zeros(n))[..|front| + n] == front + [b] + Zeros(n - 1);
      assert (front + [false] + Zeros(n))[..|front| + n] == front + [false] + Zeros(n - 1);
    }
  }

  lemma {:induction false} BytesOfIndex(bits: seq<bool>)
    requires |bits| % 8 == 0
    ensures forall k :: 0 <= k < |bits| / 8 ==> BytesOf(bits)[k] == FromBits(bits[8 * k..8 * k + 8])
  {
    hide FromBits;
    if bits != [] {
      var n := |bits| - 8;
      BytesOfIndex(bits[..n]);
      forall k | 0 <= k < |bits| / 8 ensures BytesOf(bits)[k] == FromBits(bits[8 * k..8 * k + 8]) {
        if 8 * k < n {
          assert bits[..n][8 * k..8 * k + 8] == bits[8 * k..8 * k + 8];
        } else {
          assert bits[n..] == bits[8 * k..8 * k + 8];
        }
      }
    }
  }

  // ---------- encoding ----------

  /** Encodes segments, or reports why it cannot. */
  method EncodeSegments(segs: seq<Segment>, ecl: Ecc, minVersion: int, maxVersion: int, mask: int, boostEcl: bool)
    returns (r: Result<QrCode>)
    ensures r == Err(InvalidArgument) <==>
      !(MIN_VERSION <= minVersion <= maxVersion <= MAX_VERSION) || mask < -1 || mask > 7
    ensures r.Err? ==> r.error == InvalidArgument || r.error == DataTooLong
    ensures r == Err(DataTooLong) ==>
      forall v :: minVersion <= v <= maxVersion ==> IsVersion(v) && !Suits(segs, v, ecl)
    ensures r.Ok? ==>
      var q := r.value;
      && IsVersionFor(segs, ecl, minVersion, maxVersion, q.version)
      && IsLevelFor(segs, q.version, ecl, boostEcl, q.errorCorrectionLevel)
      && 0 <= q.mask <= 7
      && IsSymbolOf(q, segs)
      && (if mask == -1 then IsBestMask(q.version, q.errorCorrectionLevel, DataCodewordsOf(segs, q.version, q.errorCorrectionLevel), q.mask)
          else q.mask == mask)
  {
    hide TotalBits, NumDataCodewords, LayoutOf, FinalGrid, IsBestMask, Contents, Pad, Stream, BytesOf;
    if !(MIN_VERSION <= minVersion && minVersion <= maxVersion && maxVersion <= MAX_VERSION) || mask < -1 || mask > 7 {
      return Err(InvalidArgument);
    }
    var version, dataUsedBits := FindVersion(segs, ecl, minVersion, maxVersion);
    if dataUsedBits == -1 {
      return Err(DataTooLong);
    }
    var level := BoostLevel(segs, version, ecl, boostEcl, dataUsedBits);
    SuitsMeans(segs, version, level);
    var bb := Concatenate(segs, version);
    PadBuffer(bb, Capacity(version, level));
    var dataCodewords := PackBytes(bb.bits);
    r := QrCode.Create(version, level, dataCodewords, mask);
  }

  lemma {:induction false} SuitsMeans(segs: seq<Segment>, ver: int, ecl: Ecc)
    requires IsVersion(ver) && Suits(segs, ver, ecl)
    ensures CountsFit(segs, ver) && |Stream(segs, ver)| <= Capacity(ver, ecl) && Capacity(ver, ecl) % 8 == 0
  {
    hide Stream, NumDataCodewords;
  }

  /** The grid of `q` is the finished symbol of the segments. */
  ghost predicate IsSymbolOf(q: QrCode, segs: seq<Segment>)
    requires IsVersion(q.version) && Suits(segs, q.version, q.errorCorrectionLevel)
    reads q, q.modules
  {
    && 0 <= q.mask <= 7
    && q.modules.Length0 == q.modules.Length1 == Size(q.version)
    && Contents(q.modules)
       == FinalGrid(q.version, q.errorCorrectionLevel, DataCodewordsOf(segs, q.version, q.errorCorrectionLevel), q.mask)
  }

  // ---------- reading a symbol ----------

  /** What a reader gets from a grid: version from the size, level and mask from the format bits. */
  function ReadSymbol(g: Grid, ver: int): Option<seq<Payload>>
    requires IsVersion(ver) && Square(g, Size(ver))
  {
    FunctionGridHasRoom(ver, LOW);
    var codewords := ReadCodewords(g, FunctionGrid(ver, LOW), NumRawDataModules(ver) / 8);
    var data := ReadData(LayoutOf(ver, ReadLevel(g)), codewords);
    Parse(BitsOf(data), ver)
  }

  /** The data codewords of a finished symbol are read back. */
  lemma {:induction false} ReadsData(ver: int, ecl: Ecc, data: seq<Byte>, m: nat)
    requires IsVersion(ver) && |data| == NumDataCodewords(ver, ecl) && m < 8
    ensures ReadSymbol(FinalGrid(ver, ecl, data, m), ver) == Parse(BitsOf(data), ver)
  {
    hide FunctionGrid, HasRoom, NumRawDataModules, NumDataCodewords, LayoutOf, WithEcc, SymbolGrid, ReadCodewords,
      ReadLevel, ReadMask, ReadData, Drawn, Parse, BitsOf;
    var l := LayoutOf(ver, ecl);
    var base, fn, codewords := Drawn(ver, ecl), FunctionGrid(ver, ecl), WithEcc(l, data);
    FunctionGridHasRoom(ver, ecl);
    FunctionGridSame(ver, ecl);
    ReadsHeader(base, fn, ecl, codewords, m);
    ReadsCodewords(base, fn, ecl, codewords, m);
    ReadDataWithEcc(l, data);
  }

  /** End to end: reading the finished symbol of factory-made segments returns their payloads. */
  lemma {:induction false} SymbolRoundTrip(ps: seq<Payload>, ver: int, ecl: Ecc, m: nat)
    requires forall i :: 0 <= i < |ps| ==> Encodable(ps[i])
    requires IsVersion(ver) && Suits(SegmentsOf(ps), ver, ecl) && m < 8
    ensures ReadSymbol(FinalGrid(ver, ecl, DataCodewordsOf(SegmentsOf(ps), ver, ecl), m), ver) == Some(ps)
  {
    hide FinalGrid, ReadSymbol, SegmentsOf, Parse, Pad, Stream, BytesOf, BitsOf, NumDataCodewords, Encodable;
    var segs := SegmentsOf(ps);
    SuitsMeans(segs, ver, ecl);
    ReadsData(ver, ecl, DataCodewordsOf(segs, ver, ecl), m);
    BitsOfBytesOf(Pad(Stream(segs, ver), Capacity(ver, ecl)));
    ParsePadded(ps, ver, Capacity(ver, ecl));
  }

  // ---------- encoding text and bytes ----------

  /** The payloads of a text: at most one, in the densest mode that holds it. */
  method MakeSegments(text: string) returns (r: Result<seq<Segment>>)
    requires IsCString(text)
    ensures r.Ok? <==> forall p :: p in TextPayloads(text) ==> Encodable(p)
    ensures r.Ok? ==>
      (forall i :: 0 <= i < |TextPayloads(text)| ==> Encodable(TextPayloads(text)[i])) && r.value == SegmentsOf(TextPayloads(text))
    ensures r.Ok? ==> exists ps :: AllEncodable(ps) && SayText(ps, text) && r.value == SegmentsOf(ps)
    ensures r.Err? ==> r.error == LengthError && |text| > INT_MAX && !AllInCharset(text)
  {
    hide SegmentOf, IsNumeric, IsAlphanumeric, SayText;
    ModesOfText(text);
    if text == "" {
      return Ok([]);
    }
    var seg: Result<Segment>;
    var numeric := TestNumeric(text);
    if numeric {
      seg := MakeNumeric(text);
    } else {
      var alphanumeric := TestAlphanumeric(text);
      if alphanumeric {
        seg := MakeAlphanumeric(text);
      } else {
        seg := MakeBytes(BytesOfText(text));
      }
    }
    assert |TextPayloads(text)| == 1;
    if seg.Err? {
      assert TextPayloads(text)[0] in TextPayloads(text);
      return Err(LengthError);
    }
    assert [seg.value] == SegmentsOf([TextPayloads(text)[0]]);
    return Ok([seg.value]);
  }

  /** A symbol from which a reader gets back exactly the payloads. */
  ghost predicate Reads(q: QrCode, ps: seq<Payload>)
    reads q, q.modules
  {
    && IsVersion(q.version)
    && q.modules.Length0 == q.modules.Length1 == Size(q.version)
    && ReadSymbol(Contents(q.modules), q.version) == Some(ps)
  }

  /** A symbol from which a reader gets payloads that say the text, in the densest mode that can. */
  ghost predicate ReadsText(q: QrCode, text: string)
    reads q, q.modules
  {
    && IsVersion(q.version)
    && q.modules.Length0 == q.modules.Length1 == Size(q.version)
    && var ps := ReadSymbol(Contents(q.modules), q.version);
       ps.Some? && SayText(ps.value, text)
  }

  ghost predicate AllEncodable(ps: seq<Payload>) {
    forall i :: 0 <= i < |ps| ==> Encodable(ps[i])
  }

  /**
   What encoding payloads without constraints gives: a symbol that reads back as the payloads, in the
   smallest version, at the highest level that still suits and with the best mask; an error only if a
   payload is too long for a segment or no version suits.
   */
  ghost predicate IsEncoding(r: Result<QrCode>, ps: seq<Payload>, ecl: Ecc)
    reads if r.Ok? then {r.value, r.value.modules} else {}
  {
    match r
    case Ok(q) =>
      && AllEncodable(ps) && Reads(q, ps)
      && var segs := SegmentsOf(ps);
         && IsVersionFor(segs, ecl, MIN_VERSION, MAX_VERSION, q.version)
         && IsLevelFor(segs, q.version, ecl, true, q.errorCorrectionLevel)
         && IsBestMask(q.version, q.errorCorrectionLevel, DataCodewordsOf(segs, q.version, q.errorCorrectionLevel), q.mask)
    case Err(e) =>
      || (e == LengthError && !AllEncodable(ps))
      || (e == DataTooLong && AllEncodable(ps) && forall v :: IsVersion(v) ==> !Suits(SegmentsOf(ps), v, ecl))
  }

  method EncodePayloads(segs: seq<Segment>, ecl: Ecc, ghost ps: seq<Payload>) returns (r: Result<QrCode>)
    requires AllEncodable(ps) && segs == SegmentsOf(ps)
    ensures IsEncoding(r, ps, ecl)
  {
    hide ReadSymbol, FinalGrid, Contents, SegmentsOf, DataCodewordsOf, IsBestMask, TotalBits;
    r := EncodeSegments(segs, ecl, MIN_VERSION, MAX_VERSION, -1, true);
    if r.Ok? {
      var q := r.value;
      SymbolRoundTrip(ps, q.version, q.errorCorrectionLevel, q.mask);
    }
  }

  // ---------- documented limits ----------

  /** The most bytes, or characters of a text, that the documentation promises room for. */
  const MAX_BYTES := 2953

  lemma {:induction false} LowCapacity(ver: int)
    requires IsVersion(ver)
    ensures NumDataCodewords(ver, LOW) <= 2956
    ensures ver == 40 ==> NumDataCodewords(ver, LOW) == 2956
  {
  }

  lemma {:induction false} OneSegmentSuits(seg: Segment, ver: int, ecl: Ecc)
    requires IsVersion(ver) && Capacity(ver, ecl) <= INT_MAX
    ensures Suits([seg], ver, ecl) <==>
            && seg.numChars < Pow2(seg.mode.CountBits(ver))
            && 4 + seg.mode.CountBits(ver) + |seg.data| <= Capacity(ver, ecl)
  {
    hide SegmentBits, Pow2, Capacity;
    assert [seg][1..] == [];
    EmptyStream(ver);
    assert [seg][0] == seg;
  }

  /** Bytes fit some symbol at the lowest level exactly when there are no more than the documented number. */
  lemma {:induction false} BinaryLimit(data: seq<Byte>)
    requires Encodable(Bytes(data))
    ensures (exists v :: IsVersion(v) && Suits([SegmentOf(Bytes(data))], v, LOW)) <==> |data| <= MAX_BYTES
  {
    hide NumDataCodewords, Suits, BitsOf, Pow2;
    var seg := SegmentOf(Bytes(data));
    SmallPowers();
    forall v | IsVersion(v)
      ensures Suits([seg], v, LOW) ==> |data| <= MAX_BYTES
      ensures v == 40 && |data| <= MAX_BYTES ==> Suits([seg], v, LOW)
    {
      LowCapacity(v);
      OneSegmentSuits(seg, v, LOW);
      CountRange(v);
    }
    assert |data| <= MAX_BYTES ==> IsVersion(40) && Suits([seg], 40, LOW);
  }

  lemma {:induction false} BinaryOutcome(r: Result<QrCode>, data: seq<Byte>)
    requires IsEncoding(r, [Bytes(data)], LOW)
    ensures r.Ok? <==> |data| <= MAX_BYTES
  {
    hide Reads, IsLevelFor, IsBestMask, DataCodewordsOf, Suits, SegmentOf, SegmentsOf;
    var ps := [Bytes(data)];
    if Encodable(ps[0]) {
      SingleSegment(ps[0]);
      BinaryLimit(data);
    }
  }

  lemma {:induction false} SingleSegment(p: Payload)
    requires Encodable(p)
    ensures AllEncodable([p]) && SegmentsOf([p]) == [SegmentOf(p)]
  {
    hide SegmentOf;
  }

  lemma {:induction false} CountRange(ver: int)
    requires IsVersion(ver)
    ensures Pow2(BYTE.CountBits(ver)) <= 65536
    ensures BYTE.CountBits(ver) == 16 || Pow2(BYTE.CountBits(ver)) == 256
    ensures ver == 40 ==> BYTE.CountBits(ver) == 16 && Pow2(16) == 65536
  {
    PowersOfCounts();
  }

  lemma {:induction false} PowersOfCounts()
    ensures Pow2(8) == 256 && Pow2(13) == 8192 && Pow2(14) == 16384 && Pow2(16) == 65536
  {
    assert Pow2(4) == 16;
    assert Pow2(8) == 256;
    assert Pow2(12) == 4096;
    assert Pow2(14) == 16384;
  }

  /** A text of up to the documented number of characters always fits the largest symbol at the lowest level. */
  lemma {:induction false} TextLimit(text: string)
    requires IsCString(text) && |text| <= MAX_BYTES
    ensures AllEncodable(TextPayloads(text))
    ensures Suits(SegmentsOf(TextPayloads(text)), 40, LOW)
  {
    hide NumDataCodewords, BitsOf, Pow2, PackNumeric, PackText, Stream;
    LowCapacity(40);
    PowersOfCounts();
    var ps := TextPayloads(text);
    if ps == [] {
      EmptyStream(40);
      assert SegmentsOf(ps) == [];
    } else {
      var seg := SegmentOf(ps[0]);
      assert SegmentsOf(ps) == [seg];
      OneSegmentSuits(seg, 40, LOW);
      if ps[0].Digits? {
        PackNumericLength(text);
      } else if ps[0].Text? {
        PackTextLength(text);
      }
    }
  }

  lemma {:induction false} ReadsMeansText(q: QrCode, text: string)
    requires IsCString(text) && Reads(q, TextPayloads(text))
    ensures ReadsText(q, text)
  {
    hide ReadSymbol, Contents, SayText, TextPayloads;
  }

  method EncodeText(text: string, ecl: Ecc) returns (r: Result<QrCode>)
    requires IsCString(text)
    ensures IsEncoding(r, TextPayloads(text), ecl)
    ensures r.Ok? ==> ReadsText(r.value, text)
    ensures ecl == LOW && |text| <= MAX_BYTES ==> r.Ok?
  {
    hide Reads, SegmentsOf, TextPayloads, IsVersionFor, IsLevelFor, IsBestMask, DataCodewordsOf, Suits, Encodable;
    if ecl == LOW && |text| <= MAX_BYTES {
      TextLimit(text);
    }
    var segs := MakeSegments(text);
    if segs.Err? {
      return Err(LengthError);
    }
    r := EncodePayloads(segs.value, ecl, TextPayloads(text));
    if r.Ok? {
      ReadsMeansText(r.value, text);
    }
  }

  method EncodeBinary(data: seq<Byte>, ecl: Ecc) returns (r: Result<QrCode>)
    ensures IsEncoding(r, [Bytes(data)], ecl)
    ensures ecl == LOW ==> (r.Ok? <==> |data| <= MAX_BYTES)
  {
    hide Reads, IsVersionFor, IsLevelFor, IsBestMask, DataCodewordsOf, Suits, SegmentOf, SegmentsOf;
    var seg := MakeBytes(data);
    if seg.Err? {
      assert !Encodable([Bytes(data)][0]);
      r := Err(LengthError);
    } else {
      SingleSegment(Bytes(data));
      r := EncodePayloads([seg.value], ecl, [Bytes(data)]);
    }
    if ecl == LOW {
      BinaryOutcome(r, data);
    }
  }
}
