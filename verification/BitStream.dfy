/** The data bit stream of a symbol: segment headers and payloads, terminator and padding; and its parser. */
module BitStream {
  import opened Results
  import opened Bits
  import opened Segments

  // ---------- the stream ----------

  /** One segment in a symbol of the given version: mode indicator, character count, data. */
  function SegmentBits(seg: Segment, ver: nat): (bits: seq<bool>)
    ensures |bits| == 4 + seg.mode.CountBits(ver) + |seg.data|
  {
    ToBits(seg.mode.ModeBits(), 4) + ToBits(seg.numChars, seg.mode.CountBits(ver)) + seg.data
  }

  function Stream(segs: seq<Segment>, ver: nat): seq<bool> {
    if segs == [] then [] else SegmentBits(segs[0], ver) + Stream(segs[1..], ver)
  }

  lemma {:induction false} StreamSnoc(segs: seq<Segment>, seg: Segment, ver: nat)
    ensures Stream(segs + [seg], ver) == Stream(segs, ver) + SegmentBits(seg, ver)
  {
    hide SegmentBits;
    if segs == [] {
      assert segs + [seg] == [seg];
    } else {
      StreamSnoc(segs[1..], seg, ver);
      assert (segs + [seg])[1..] == segs[1..] + [seg];
    }
  }

  /** Every character count fits its field. */
  ghost predicate CountsFit(segs: seq<Segment>, ver: nat) {
    forall i :: 0 <= i < |segs| ==> segs[i].numChars < Pow2(segs[i].mode.CountBits(ver))
  }

  /** The length of the stream, or -1 if a count does not fit its field or the length does not fit an int. */
  ghost function TotalBits(segs: seq<Segment>, ver: nat): int {
    if CountsFit(segs, ver) && |Stream(segs, ver)| <= INT_MAX then |Stream(segs, ver)| else -1
  }

  lemma {:induction false} StreamGrows(segs: seq<Segment>, n: nat, ver: nat)
    requires n <= |segs|
    ensures |Stream(segs[..n], ver)| <= |Stream(segs, ver)|
  {
    hide SegmentBits;
    if n == 0 {
      assert segs[..0] == [];
    } else {
      StreamGrows(segs[1..], n - 1, ver);
      assert segs[..n][1..] == segs[1..][..n - 1];
    }
  }

  method GetTotalBits(segs: seq<Segment>, ver: nat) returns (result: int)
    ensures result == TotalBits(segs, ver)
  {
    hide SegmentBits, Pow2, Stream;
    result := 0;
    EmptyStream(ver);
    assert segs[..0] == [];
    for i := 0 to |segs|
      invariant result == |Stream(segs[..i], ver)| <= INT_MAX
      invariant CountsFit(segs[..i], ver)
    {
      var seg := segs[i];
      assert segs[..i + 1] == segs[..i] + [seg];
      StreamSnoc(segs[..i], seg, ver);
      StreamGrows(segs, i + 1, ver);
      var ccbits := seg.mode.CountBits(ver);
      if seg.numChars >= Pow2(ccbits) {
        return -1;
      }
      if 4 + ccbits > INT_MAX - result {
        return -1;
      }
      result := result + 4 + ccbits;
      if |seg.data| > INT_MAX - result {
        return -1;
      }
      result := result + |seg.data|;
    }
    assert segs[..|segs|] == segs;
  }

  lemma {:induction false} EmptyStream(ver: nat)
    ensures Stream([], ver) == []
  {
  }

  // ---------- padding ----------

  function Zeros(n: nat): (bits: seq<bool>)
    ensures |bits| == n
  {
    seq(n, _ => false)
  }

  /** Up to four zero bits, as far as there is room. */
  function Terminator(len: nat, capacity: nat): (n: nat)
    requires len <= capacity
    ensures len + n <= capacity && n <= 4
    ensures n == 4 || len + n == capacity
  {
    if capacity - len < 4 then capacity - len else 4
  }

  /** Alternating pad bytes until the capacity is reached, starting with `pad`. */
  function Fill(bits: seq<bool>, capacity: nat, pad: Byte): (r: seq<bool>)
    requires |bits| <= capacity && |bits| % 8 == 0 && capacity % 8 == 0
    ensures |r| == capacity && bits <= r
    decreases capacity - |bits|
  {
    if |bits| == capacity then bits
    else Fill(bits + ToBits(pad, 8), capacity, if pad == 0xEC then 0x11 else 0xEC)
  }

  /** The zeros that fill up the last byte still fit the capacity. */
  lemma PadAligns(len: nat, capacity: nat)
    requires len <= capacity && capacity % 8 == 0
    ensures (len + (8 - len % 8) % 8) % 8 == 0 && len + (8 - len % 8) % 8 <= capacity
  {
  }

  /** The stream with terminator, zeros up to a whole byte, and pad bytes up to the capacity. */
  function Pad(bits: seq<bool>, capacity: nat): (r: seq<bool>)
    requires |bits| <= capacity && capacity % 8 == 0
    ensures |r| == capacity
    ensures bits + Zeros(Terminator(|bits|, capacity)) <= r
  {
    var terminated := bits + Zeros(Terminator(|bits|, capacity));
    PadAligns(|terminated|, capacity);
    var aligned := terminated + Zeros((8 - |terminated| % 8) % 8);
    assert terminated <= aligned;
    Fill(aligned, capacity, 0xEC)
  }

  // ---------- parsing ----------

  function ModeOf(n: nat): Option<Mode> {
    if n == 0x1 then Some(NUMERIC)
    else if n == 0x2 then Some(ALPHANUMERIC)
    else if n == 0x4 then Some(BYTE)
    else if n == 0x7 then Some(ECI)
    else None
  }

  lemma {:induction false} LengthOfPrefix(mode: Mode, count: nat, rest: seq<bool>, n: nat)
    requires PayloadLength(mode, count, rest) == Some(n) && n <= |rest|
    ensures PayloadLength(mode, count, rest[..n]) == Some(n)
  {
  }

  /** Reads segments until fewer than four bits or a zero mode indicator are left. */
  function Parse(bits: seq<bool>, ver: nat): Option<seq<Payload>>
    decreases |bits|
  {
    if |bits| < 4 || FromBits(bits[..4]) == 0 then Some([])
    else
      match ModeOf(FromBits(bits[..4]))
      case None => None
      case Some(mode) =>
        var start := 4 + mode.CountBits(ver);
        if |bits| < start then None
        else
          var count, rest := FromBits(bits[4..start]), bits[start..];
          match PayloadLength(mode, count, rest)
          case None => None
          case Some(n) =>
            if |rest| < n then None
            else
              LengthOfPrefix(mode, count, rest, n);
              match (Decode(mode, count, rest[..n]), Parse(rest[n..], ver))
              case (Some(p), Some(ps)) => Some([p] + ps)
              case _ => None
  }

  function SegmentsOf(ps: seq<Payload>): (segs: seq<Segment>)
    requires forall i :: 0 <= i < |ps| ==> Encodable(ps[i])
    ensures |segs| == |ps|
  {
    seq(|ps|, i requires 0 <= i < |ps| => SegmentOf(ps[i]))
  }

  /** What stops the parser: nothing left, or a terminator. */
  ghost predicate Stops(tail: seq<bool>) {
    |tail| < 4 || tail[..4] == Zeros(4)
  }

  lemma {:induction false} ZerosAreZero()
    ensures FromBits(Zeros(4)) == 0
  {
    hide FromBits;
    FromToBits0();
    assert ToBits(0, 4) == Zeros(4) by {
      ToZeros(4);
    }
  }

  lemma {:induction false} ToZeros(n: nat)
    ensures ToBits(0, n) == Zeros(n)
  {
    if n != 0 {
      ToZeros(n - 1);
    }
  }

  lemma {:induction false} FromToBits0()
    ensures FromBits(ToBits(0, 4)) == 0
  {
    hide FromBits, ToBits;
    FromToBits(0, 4);
  }

  lemma {:induction false} ParseStops(tail: seq<bool>, ver: nat)
    requires Stops(tail)
    ensures Parse(tail, ver) == Some([])
  {
    hide FromBits;
    ZerosAreZero();
  }

  /** A reader that knows only the version finds every segment again, whatever follows the terminator. */
  lemma {:induction false} ParseStream(ps: seq<Payload>, ver: nat, tail: seq<bool>)
    requires forall i :: 0 <= i < |ps| ==> Encodable(ps[i])
    requires CountsFit(SegmentsOf(ps), ver)
    requires Stops(tail)
    ensures Parse(Stream(SegmentsOf(ps), ver) + tail, ver) == Some(ps)
  {
    hide SegmentOf, SegmentBits, Encodable, Parse, Pow2;
    var segs := SegmentsOf(ps);
    if ps == [] {
      ParseStops(tail, ver);
      assert Stream(segs, ver) + tail == tail;
    } else {
      var seg, more := segs[0], ps[1..];
      assert segs[1..] == SegmentsOf(more);
      ParseStream(more, ver, tail);
      var after := Stream(segs[1..], ver) + tail;
      assert Stream(segs, ver) + tail == SegmentBits(seg, ver) + after;
      ParseSegment(ps[0], ver, after);
      assert ps == [ps[0]] + more;
    }
  }

  /** The parser reads one segment off the front. */
  lemma {:induction false} ParseSegment(p: Payload, ver: nat, after: seq<bool>)
    requires Encodable(p) && SegmentOf(p).numChars < Pow2(SegmentOf(p).mode.CountBits(ver))
    ensures Parse(SegmentBits(SegmentOf(p), ver) + after, ver)
         == match Parse(after, ver)
            case Some(ps) => Some([p] + ps)
            case None => None
  {
    hide SegmentOf, Encodable, PayloadLength, Decode, FromBits, ToBits, Pow2;
    var seg := SegmentOf(p);
    var cc := seg.mode.CountBits(ver);
    var bits := SegmentBits(seg, ver) + after;
    SmallPowers();
    FromToBits(seg.mode.ModeBits(), 4);
    FromToBits(seg.numChars, cc);
    assert bits[..4] == ToBits(seg.mode.ModeBits(), 4);
    assert bits[4..4 + cc] == ToBits(seg.numChars, cc);
    var rest := bits[4 + cc..];
    assert rest == seg.data + after;
    DecodeSegment(p, after);
    assert rest[..|seg.data|] == seg.data && rest[|seg.data|..] == after;
  }

  /** The padded stream parses back to the payloads it was made from. */
  lemma {:induction false} ParsePadded(ps: seq<Payload>, ver: nat, capacity: nat)
    requires forall i :: 0 <= i < |ps| ==> Encodable(ps[i])
    requires CountsFit(SegmentsOf(ps), ver)
    requires |Stream(SegmentsOf(ps), ver)| <= capacity && capacity % 8 == 0
    ensures Parse(Pad(Stream(SegmentsOf(ps), ver), capacity), ver) == Some(ps)
  {
    hide Stream, Pad, Parse, SegmentsOf;
    var bits := Stream(SegmentsOf(ps), ver);
    var padded, n := Pad(bits, capacity), Terminator(|bits|, capacity);
    var tail := padded[|bits|..];
    assert padded == bits + tail;
    assert tail[..n] == Zeros(n) by {
      assert padded[|bits|..|bits| + n] == (bits + Zeros(n))[|bits|..|bits| + n];
    }
    ParseStream(ps, ver, tail);
  }
}
