/** Segments: the factories that turn payloads into bits, and the decoders that turn them back. */
module Segments {
  import opened Results
  import opened Bits
  import opened Zigzag

  const INT_MAX := 0x7FFF_FFFF

  datatype Mode = NUMERIC | ALPHANUMERIC | BYTE | ECI {

    /** The mode indicator, a nonzero four-bit value. */
    function ModeBits(): (n: nat)
      ensures 0 < n < 16
    {
      match this
      case NUMERIC => 0x1
      case ALPHANUMERIC => 0x2
      case BYTE => 0x4
      case ECI => 0x7
    }

    /** The width of the character count field in the given version. */
    function CountBits(ver: nat): (n: nat)
      ensures n <= 16
    {
      var k := (ver + 7) / 17;
      match this
      case NUMERIC => if k == 0 then 10 else if k == 1 then 12 else 14
      case ALPHANUMERIC => if k == 0 then 9 else if k == 1 then 11 else 13
      case BYTE => if k == 0 then 8 else 16
      case ECI => 0
    }
  }

  datatype Segment = Segment(mode: Mode, numChars: nat, data: seq<bool>)

  /** What a caller hands to one of the factories. */
  datatype Payload =
    | Digits(digits: string)
    | Text(text: string)
    | Bytes(bytes: seq<Byte>)
    | Designator(assignVal: int)

  // ---------- numeric mode ----------

  predicate IsDigit(c: char) {
    '0' <= c <= '9'
  }

  predicate IsNumeric(s: string) {
    forall i :: 0 <= i < |s| ==> IsDigit(s[i])
  }

  function DigitValue(c: char): (n: nat)
    requires IsDigit(c)
    ensures n < 10
  {
    c as int - '0' as int
  }

  function DigitChar(n: nat): (c: char)
    requires n < 10
    ensures IsDigit(c) && DigitValue(c) == n
  {
    (n + 48) as char
  }

  /** The number that a digit string denotes. */
  function Value(s: string): nat
    requires IsNumeric(s)
  {
    if s == "" then 0 else Value(s[..|s| - 1]) * 10 + DigitValue(s[|s| - 1])
  }

  /** The `n` decimal digits of `v`. */
  function Decimal(v: nat, n: nat): (s: string)
    ensures |s| == n && IsNumeric(s)
  {
    if n == 0 then "" else Decimal(v / 10, n - 1) + [DigitChar(v % 10)]
  }

  lemma {:induction false} DecimalValue(s: string)
    requires IsNumeric(s)
    ensures Decimal(Value(s), |s|) == s
  {
    hide Decimal, DigitValue;
    if s != "" {
      var n := |s| - 1;
      DecimalValue(s[..n]);
      assert s == s[..n] + [s[n]];
      AppendDigit(Value(s[..n]), s[n], n);
    }
  }

  lemma {:induction false} AppendDigit(v: nat, c: char, n: nat)
    requires IsDigit(c)
    ensures Decimal(v * 10 + DigitValue(c), n + 1) == Decimal(v, n) + [c]
  {
    var d := DigitValue(c);
    assert (v * 10 + d) / 10 == v && (v * 10 + d) % 10 == d;
    assert DigitChar(d) == c;
  }

  lemma ValueBounds(s: string)
    requires IsNumeric(s) && |s| <= 3
    ensures |s| == 0 ==> Value(s) == 0
    ensures |s| == 1 ==> Value(s) < 10
    ensures |s| == 2 ==> Value(s) < 100
    ensures |s| == 3 ==> Value(s) < 1000
  {
    if |s| > 0 {
      var t := s[..|s| - 1];
      if |t| > 0 {
        assert |t[..|t| - 1]| <= 1;
      }
    }
  }

  /** The width of the field for a group of digits: 10 for a full group, 4 or 7 for the last. */
  function GroupBits(n: nat): nat
    requires n <= 3
  {
    if n == 0 then 0 else n * 3 + 1
  }

  /** Groups of three digits, each as one number. */
  function PackNumeric(s: string): seq<bool>
    requires IsNumeric(s)
  {
    if |s| <= 3 then ToBits(Value(s), GroupBits(|s|))
    else ToBits(Value(s[..3]), 10) + PackNumeric(s[3..])
  }

  function NumericLength(n: nat): nat {
    n / 3 * 10 + GroupBits(n % 3)
  }

  lemma {:induction false} PackNumericLength(s: string)
    requires IsNumeric(s)
    ensures |PackNumeric(s)| == NumericLength(|s|)
  {
    if |s| > 3 {
      PackNumericLength(s[3..]);
    }
  }

  /** The `n` digits that a packed bit string stands for. */
  function UnpackNumeric(bits: seq<bool>, n: nat): string
    requires |bits| == NumericLength(n)
  {
    if n <= 3 then Decimal(FromBits(bits), n)
    else Decimal(FromBits(bits[..10]), 3) + UnpackNumeric(bits[10..], n - 3)
  }

  lemma {:induction false} SmallPowers()
    ensures Pow2(4) == 16 && Pow2(7) == 128 && Pow2(10) == 1024 && Pow2(6) == 64 && Pow2(11) == 2048
    ensures Pow2(8) == 256 && Pow2(14) == 16384 && Pow2(21) == 2097152
  {
    assert Pow2(7) == 128;
    assert Pow2(14) == 16384 by {
      assert Pow2(10) == 1024;
    }
    assert Pow2(17) == 131072;
  }

  /** Every group fits its field, so unpacking a group returns its digits. */
  lemma {:induction false} GroupRoundTrip(s: string)
    requires IsNumeric(s) && |s| <= 3
    ensures Value(s) < Pow2(GroupBits(|s|))
    ensures Decimal(FromBits(ToBits(Value(s), GroupBits(|s|))), |s|) == s
  {
    hide Value, Decimal, Pow2, FromBits, ToBits;
    SmallPowers();
    PowZero();
    ValueBounds(s);
    FromToBits(Value(s), GroupBits(|s|));
    DecimalValue(s);
  }

  lemma {:induction false} PowZero()
    ensures Pow2(0) == 1
  {
  }

  lemma {:induction false} NumericRoundTrip(s: string)
    requires IsNumeric(s)
    ensures |PackNumeric(s)| == NumericLength(|s|)
    ensures UnpackNumeric(PackNumeric(s), |s|) == s
  {
    hide Value, Decimal, FromBits, ToBits;
    PackNumericLength(s);
    if |s| <= 3 {
      GroupRoundTrip(s);
    } else {
      var head, tail := s[..3], s[3..];
      GroupRoundTrip(head);
      NumericRoundTrip(tail);
      var bits := PackNumeric(s);
      assert bits[..10] == ToBits(Value(head), 10);
      assert bits[10..] == PackNumeric(tail);
      assert s == head + tail;
    }
  }

  // ---------- alphanumeric mode ----------

  const ALPHANUMERIC_CHARSET: string := "0123456789" + "ABCDEFGHIJKLM" + "NOPQRSTUVWXYZ" + " $%*+-./:"

  /** The first place of `c` in a string, from index `i` on; its length if there is none. */
  function IndexFrom(charset: string, c: char, i: nat): (k: nat)
    requires i <= |charset|
    ensures i <= k <= |charset|
    ensures k < |charset| ==> charset[k] == c
    ensures forall j :: i <= j < k ==> charset[j] != c
    decreases |charset| - i
  {
    if i == |charset| || charset[i] == c then i else IndexFrom(charset, c, i + 1)
  }

  /** The value of a character, or 45 if it has none. */
  function CharValue(c: char): (k: nat)
    ensures k <= 45
  {
    assert |ALPHANUMERIC_CHARSET| == 45;
    IndexFrom(ALPHANUMERIC_CHARSET, c, 0)
  }

  lemma {:induction false} CharRoundTrip(c: char)
    ensures CharValue(c) < 45 <==> c in ALPHANUMERIC_CHARSET
    ensures CharValue(c) < 45 ==> CharOf(CharValue(c)) == c
  {
  }

  predicate IsAlphanumeric(s: string) {
    forall i :: 0 <= i < |s| ==> CharValue(s[i]) < 45
  }

  function CharOf(k: nat): char
    requires k < 45
  {
    assert |ALPHANUMERIC_CHARSET| == 45;
    ALPHANUMERIC_CHARSET[k]
  }

  /** Pairs of characters, each as one number below 45 * 45, and a last character in six bits. */
  function PackText(s: string): seq<bool>
    requires IsAlphanumeric(s)
  {
    if |s| == 0 then []
    else if |s| == 1 then ToBits(CharValue(s[0]), 6)
    else ToBits(CharValue(s[0]) * 45 + CharValue(s[1]), 11) + PackText(s[2..])
  }

  function TextLength(n: nat): nat {
    n / 2 * 11 + n % 2 * 6
  }

  lemma {:induction false} PackTextLength(s: string)
    requires IsAlphanumeric(s)
    ensures |PackText(s)| == TextLength(|s|)
  {
    hide CharValue;
    if |s| > 1 {
      PackTextLength(s[2..]);
    }
  }

  function UnpackText(bits: seq<bool>, n: nat): Option<string>
    requires |bits| == TextLength(n)
  {
    if n == 0 then Some("")
    else if n == 1 then
      var v := FromBits(bits);
      if v < 45 then Some([CharOf(v)]) else None
    else
      var v := FromBits(bits[..11]);
      if v < 45 * 45 then
        match UnpackText(bits[11..], n - 2)
        case Some(rest) => Some([CharOf(v / 45), CharOf(v % 45)] + rest)
        case None => None
      else None
  }

  lemma {:induction false} TextRoundTrip(s: string)
    requires IsAlphanumeric(s)
    ensures |PackText(s)| == TextLength(|s|)
    ensures UnpackText(PackText(s), |s|) == Some(s)
  {
    hide CharValue, CharOf, FromBits, ToBits, Pow2;
    PackTextLength(s);
    SmallPowers();
    if |s| == 1 {
      FromToBits(CharValue(s[0]), 6);
      CharRoundTrip(s[0]);
      assert s == [s[0]];
    } else if |s| > 1 {
      var v, tail := CharValue(s[0]) * 45 + CharValue(s[1]), s[2..];
      FromToBits(v, 11);
      CharRoundTrip(s[0]); CharRoundTrip(s[1]);
      assert v / 45 == CharValue(s[0]) && v % 45 == CharValue(s[1]);
      TextRoundTrip(tail);
      var bits := PackText(s);
      assert bits[..11] == ToBits(v, 11);
      assert bits[11..] == PackText(tail);
      assert s == [s[0], s[1]] + tail;
    }
  }

  // ---------- designators ----------

  /** The value in 8, 16 or 24 bits; the leading bits 0, 10 or 110 tell which. */
  function PackDesignator(v: nat): seq<bool>
    requires v < 1000000
  {
    if v < 128 then ToBits(v, 8)
    else if v < 16384 then ToBits(2, 2) + ToBits(v, 14)
    else ToBits(6, 3) + ToBits(v, 21)
  }

  /** The length of a designator, told from its leading bits. */
  function DesignatorLength(bits: seq<bool>): Option<nat> {
    if |bits| >= 8 && !bits[0] then Some(8)
    else if |bits| >= 16 && !bits[1] then Some(16)
    else if |bits| >= 24 && !bits[2] then Some(24)
    else None
  }

  function UnpackDesignator(bits: seq<bool>): nat
    requires |bits| == 8 || |bits| == 16 || |bits| == 24
  {
    if |bits| == 8 then FromBits(bits)
    else if |bits| == 16 then FromBits(bits[2..])
    else FromBits(bits[3..])
  }

  lemma {:induction false} Prefixes()
    ensures ToBits(2, 2) == [true, false]
    ensures ToBits(6, 3) == [true, true, false]
  {
    assert ToBits(1, 1) == [true] && ToBits(0, 0) == [];
    assert ToBits(3, 2) == [true, true];
  }

  lemma {:induction false} DesignatorRoundTrip(v: nat, rest: seq<bool>)
    requires v < 1000000
    ensures DesignatorLength(PackDesignator(v) + rest) == Some(|PackDesignator(v)|)
    ensures UnpackDesignator(PackDesignator(v)) == v
  {
    hide ToBits, FromBits, Pow2, GetBit;
    SmallPowers();
    Prefixes();
    var bits := PackDesignator(v);
    if v < 128 {
      ToBitsIndex(v, 8, 0);
      TopBitClear(v);
      FromToBits(v, 8);
      assert (bits + rest)[0] == bits[0];
    } else if v < 16384 {
      FromToBits(v, 14);
      assert bits[2..] == ToBits(v, 14);
    } else {
      FromToBits(v, 21);
      assert bits[3..] == ToBits(v, 21);
    }
  }

  lemma {:induction false} TopBitClear(v: nat)
    requires v < 128
    ensures !GetBit(v, 7)
  {
    assert Pow2(7) == 128;
    ShrIsZero(v, 7);
  }

  // ---------- the segment of a payload ----------

  predicate Encodable(p: Payload) {
    match p
    case Digits(digits) => IsNumeric(digits)
    case Text(text) => IsAlphanumeric(text)
    case Bytes(bytes) => |bytes| <= INT_MAX
    case Designator(v) => 0 <= v < 1000000
  }

  function SegmentOf(p: Payload): Segment
    requires Encodable(p)
  {
    match p
    case Digits(digits) => Segment(NUMERIC, |digits|, PackNumeric(digits))
    case Text(text) => Segment(ALPHANUMERIC, |text|, PackText(text))
    case Bytes(bytes) => Segment(BYTE, |bytes|, BitsOf(bytes))
    case Designator(v) => Segment(ECI, 0, PackDesignator(v))
  }

  /** The length of the payload that starts `rest`, when its mode and character count are known. */
  function PayloadLength(mode: Mode, count: nat, rest: seq<bool>): Option<nat> {
    match mode
    case NUMERIC => Some(NumericLength(count))
    case ALPHANUMERIC => Some(TextLength(count))
    case BYTE => Some(8 * count)
    case ECI => DesignatorLength(rest)
  }

  /** The payload that a segment's bits stand for. */
  function Decode(mode: Mode, count: nat, data: seq<bool>): Option<Payload>
    requires PayloadLength(mode, count, data) == Some(|data|)
  {
    match mode
    case NUMERIC => Some(Digits(UnpackNumeric(data, count)))
    case ALPHANUMERIC =>
      (match UnpackText(data, count)
       case Some(text) => Some(Text(text))
       case None => None)
    case BYTE => Some(Bytes(BytesOf(data)))
    case ECI => Some(Designator(UnpackDesignator(data)))
  }

  /** Knowing mode and count, a reader finds the end of a segment's data and decodes it. */
  lemma {:induction false} DecodeSegment(p: Payload, rest: seq<bool>)
    requires Encodable(p)
    ensures var seg := SegmentOf(p);
            && PayloadLength(seg.mode, seg.numChars, seg.data + rest) == Some(|seg.data|)
            && PayloadLength(seg.mode, seg.numChars, seg.data) == Some(|seg.data|)
            && Decode(seg.mode, seg.numChars, seg.data) == Some(p)
  {
    hide PackNumeric, UnpackNumeric, PackText, UnpackText, BitsOf, BytesOf, PackDesignator, UnpackDesignator,
      DesignatorLength, IsNumeric, IsAlphanumeric;
    match p
    case Digits(digits) =>
      NumericRoundTrip(digits);
    case Text(text) =>
      TextRoundTrip(text);
    case Bytes(bytes) =>
      BytesOfBitsOf(bytes);
    case Designator(v) =>
      DesignatorRoundTrip(v, rest);
      DesignatorRoundTrip(v, []);
      assert PackDesignator(v) + [] == PackDesignator(v);
  }

  // ---------- the factories ----------

  method MakeBytes(data: seq<Byte>) returns (r: Result<Segment>)
    ensures r.Ok? <==> Encodable(Bytes(data))
    ensures r.Ok? ==> r.value == SegmentOf(Bytes(data))
    ensures r.Err? ==> r.error == LengthError
  {
    hide ToBits;
    if |data| > INT_MAX {
      return Err(LengthError);
    }
    var bb := new BitBuffer();
    SmallPowers();
    for i := 0 to |data|
      invariant bb.bits == BitsOf(data[..i])
    {
      assert data[..i + 1][..i] == data[..i];
      var ok := bb.AppendBits(data[i], 8);
    }
    assert data[..|data|] == data;
    return Ok(Segment(BYTE, |data|, bb.bits));
  }

  /** Full groups first: packing them and then one more group. */
  lemma {:induction false} PackNumericSnoc(front: string, group: string)
    requires IsNumeric(front) && IsNumeric(group) && |front| % 3 == 0 && 1 <= |group| <= 3
    ensures IsNumeric(front + group)
    ensures PackNumeric(front + group) == PackNumeric(front) + ToBits(Value(group), GroupBits(|group|))
  {
    hide ToBits, Value;
    if front == "" {
      assert front + group == group;
      assert PackNumeric("") == ToBits(Value(""), 0);
    } else {
      var tail := front[3..];
      PackNumericSnoc(tail, group);
      assert (front + group)[..3] == front[..3];
      assert (front + group)[3..] == tail + group;
      if |front| == 3 {
        assert front[..3] == front;
        assert tail == "";
        assert PackNumeric("") == ToBits(Value(""), 0);
      }
    }
  }

  /** A group read so far, extended by the next digit. */
  lemma {:induction false} GroupGrows(digits: string, start: nat, n: nat)
    requires start <= n < |digits| && IsNumeric(digits[..n]) && IsDigit(digits[n])
    ensures IsNumeric(digits[..n + 1]) && IsNumeric(digits[start..n + 1]) && IsNumeric(digits[start..n])
    ensures Value(digits[start..n + 1]) == Value(digits[start..n]) * 10 + DigitValue(digits[n])
  {
    var group := digits[start..n + 1];
    forall i | 0 <= i < |group| ensures IsDigit(group[i]) {
      assert group[i] == if start + i < n then digits[..n][start + i] else digits[n];
    }
    assert group[..n - start] == digits[start..n];
  }

  /** Packing one more group. */
  lemma {:induction false} GroupPacks(digits: string, start: nat, n: nat)
    requires start % 3 == 0 && start < n <= start + 3 && n <= |digits| && IsNumeric(digits[..n])
    ensures IsNumeric(digits[..start]) && IsNumeric(digits[start..n])
    ensures Value(digits[start..n]) < Pow2(GroupBits(n - start))
    ensures PackNumeric(digits[..n]) == PackNumeric(digits[..start]) + ToBits(Value(digits[start..n]), GroupBits(n - start))
  {
    hide ToBits, PackNumeric, Pow2, Value, FromBits;
    var front, group := digits[..start], digits[start..n];
    assert digits[..n] == front + group;
    assert forall i :: 0 <= i < |group| ==> group[i] == digits[..n][start + i];
    GroupRoundTrip(group);
    PackNumericSnoc(front, group);
  }

  method MakeNumeric(digits: string) returns (r: Result<Segment>)
    ensures r.Ok? <==> Encodable(Digits(digits))
    ensures r.Ok? ==> r.value == SegmentOf(Digits(digits))
    ensures r.Err? ==> r.error == DomainError
  {
    hide ToBits, PackNumeric, Pow2, Value;
    var bb := new BitBuffer();
    var accumData, accumCount, charCount := 0, 0, 0;
    EmptyPacks();
    assert digits[..0] == "" && digits[0..0] == "";
    while charCount < |digits|
      invariant 0 <= accumCount < 3 && accumCount <= charCount <= |digits|
      invariant (charCount - accumCount) % 3 == 0
      invariant IsNumeric(digits[..charCount]) && IsNumeric(digits[charCount - accumCount..charCount])
      invariant bb.bits == PackNumeric(digits[..charCount - accumCount])
      invariant accumData == Value(digits[charCount - accumCount..charCount])
    {
      var c := digits[charCount];
      if c < '0' || c > '9' {
        return Err(DomainError);
      }
      GroupGrows(digits, charCount - accumCount, charCount);
      accumData := accumData * 10 + (c as int - '0' as int);
      accumCount := accumCount + 1;
      if accumCount == 3 {
        GroupPacks(digits, charCount - 2, charCount + 1);
        var ok := bb.AppendBits(accumData, 10);
        accumData := 0;
        accumCount := 0;
        assert digits[charCount + 1..charCount + 1] == "";
      }
      charCount := charCount + 1;
    }
    assert digits[..charCount] == digits;
    if accumCount > 0 {
      GroupPacks(digits, charCount - accumCount, charCount);
      var ok := bb.AppendBits(accumData, accumCount * 3 + 1);
    }
    return Ok(Segment(NUMERIC, charCount, bb.bits));
  }

  lemma {:induction false} EmptyPacks()
    ensures PackNumeric("") == [] && PackText("") == [] && Value("") == 0
  {
  }

  lemma {:induction false} PackTextSnoc(front: string, pair: string)
    requires IsAlphanumeric(front) && IsAlphanumeric(pair) && |front| % 2 == 0 && 1 <= |pair| <= 2
    ensures IsAlphanumeric(front + pair)
    ensures PackText(front + pair) == PackText(front) + PackText(pair)
  {
    hide ToBits, CharValue;
    if front == "" {
      assert front + pair == pair;
    } else {
      var tail := front[2..];
      PackTextSnoc(tail, pair);
      assert (front + pair)[2..] == tail + pair;
    }
  }

  /** Packing one more pair, or a last single character. */
  lemma {:induction false} PairPacks(text: string, start: nat, n: nat)
    requires start % 2 == 0 && start < n <= start + 2 && n <= |text| && IsAlphanumeric(text[..n])
    ensures IsAlphanumeric(text[..start])
    ensures CharValue(text[n - 1]) < 45 && CharValue(text[start]) < 45
    ensures PackText(text[..n]) == PackText(text[..start])
            + (if n == start + 1 then ToBits(CharValue(text[start]), 6)
               else ToBits(CharValue(text[start]) * 45 + CharValue(text[start + 1]), 11))
  {
    hide ToBits, CharValue, PackText;
    var front, pair := text[..start], text[start..n];
    assert text[..n] == front + pair;
    assert forall i :: 0 <= i < |pair| ==> pair[i] == text[..n][start + i];
    PackTextSnoc(front, pair);
    PackPair(pair);
  }

  lemma {:induction false} PackPair(pair: string)
    requires 1 <= |pair| <= 2 && IsAlphanumeric(pair)
    ensures PackText(pair) == if |pair| == 1 then ToBits(CharValue(pair[0]), 6)
                              else ToBits(CharValue(pair[0]) * 45 + CharValue(pair[1]), 11)
  {
    hide ToBits, CharValue;
    if |pair| == 2 {
      assert pair[2..] == "" && PackText("") == [];
    }
  }

  method MakeAlphanumeric(text: string) returns (r: Result<Segment>)
    ensures r.Ok? <==> Encodable(Text(text))
    ensures r.Ok? ==> r.value == SegmentOf(Text(text))
    ensures r.Err? ==> r.error == DomainError
  {
    hide ToBits, Pow2, CharValue, PackText;
    var bb := new BitBuffer();
    var accumData, accumCount, charCount := 0, 0, 0;
    EmptyPacks();
    SmallPowers();
    while charCount < |text|
      invariant 0 <= accumCount < 2 && accumCount <= charCount <= |text|
      invariant (charCount - accumCount) % 2 == 0
      invariant IsAlphanumeric(text[..charCount])
      invariant bb.bits == PackText(text[..charCount - accumCount])
      invariant accumData == if accumCount == 0 then 0 else CharValue(text[charCount - 1])
    {
      var k := CharValue(text[charCount]);
      if k == 45 {
        return Err(DomainError);
      }
      assert IsAlphanumeric(text[..charCount + 1]);
      accumData := accumData * 45 + k;
      accumCount := accumCount + 1;
      if accumCount == 2 {
        PairPacks(text, charCount - 1, charCount + 1);
        var ok := bb.AppendBits(accumData, 11);
        accumData := 0;
        accumCount := 0;
      }
      charCount := charCount + 1;
    }
    assert text[..charCount] == text;
    if accumCount > 0 {
      PairPacks(text, charCount - 1, charCount);
      var ok := bb.AppendBits(accumData, 6);
    }
    return Ok(Segment(ALPHANUMERIC, charCount, bb.bits));
  }

  method MakeEci(assignVal: int) returns (r: Result<Segment>)
    ensures r.Ok? <==> Encodable(Designator(assignVal))
    ensures r.Ok? ==> r.value == SegmentOf(Designator(assignVal))
    ensures r.Err? ==> r.error == DomainError
  {
    hide ToBits, Pow2;
    SmallPowers();
    TinyPowers();
    var bb := new BitBuffer();
    if assignVal < 0 {
      return Err(DomainError);
    } else if assignVal < 128 {
      var ok := bb.AppendBits(assignVal, 8);
    } else if assignVal < 16384 {
      var ok := bb.AppendBits(2, 2);
      ok := bb.AppendBits(assignVal, 14);
    } else if assignVal < 1000000 {
      var ok := bb.AppendBits(6, 3);
      ok := bb.AppendBits(assignVal, 21);
    } else {
      return Err(DomainError);
    }
    return Ok(Segment(ECI, 0, bb.bits));
  }

  lemma {:induction false} TinyPowers()
    ensures Pow2(2) == 4 && Pow2(3) == 8
  {
  }

  // ---------- text ----------

  method TestNumeric(text: string) returns (ok: bool)
    ensures ok == IsNumeric(text)
  {
    for i := 0 to |text|
      invariant forall j :: 0 <= j < i ==> IsDigit(text[j])
    {
      var c := text[i];
      if c < '0' || c > '9' {
        return false;
      }
    }
    return true;
  }

  method TestAlphanumeric(text: string) returns (ok: bool)
    ensures ok == IsAlphanumeric(text)
  {
    hide CharValue;
    for i := 0 to |text|
      invariant forall j :: 0 <= j < i ==> CharValue(text[j]) < 45
    {
      if CharValue(text[i]) == 45 {
        return false;
      }
    }
    return true;
  }

  /** The text of a C string: every character is a byte other than the terminator. */
  ghost predicate IsCString(text: string) {
    forall i :: 0 <= i < |text| ==> text[i] != '\0' && text[i] as int < 256
  }

  /** The characters that a payload says. */
  function Says(p: Payload): string {
    match p
    case Digits(digits) => digits
    case Text(text) => text
    case Bytes(bytes) => seq(|bytes|, i requires 0 <= i < |bytes| => bytes[i] as char)
    case Designator(_) => ""
  }

  function SaysAll(ps: seq<Payload>): string {
    if ps == [] then "" else Says(ps[0]) + SaysAll(ps[1..])
  }

  ghost predicate AllDigits(text: string) {
    forall i :: 0 <= i < |text| ==> '0' <= text[i] <= '9'
  }

  ghost predicate AllInCharset(text: string) {
    forall i :: 0 <= i < |text| ==> text[i] in ALPHANUMERIC_CHARSET
  }

  /** Payloads that say the text, in the densest mode that can. */
  ghost predicate SayText(ps: seq<Payload>, text: string) {
    && SaysAll(ps) == text
    && |ps| == (if text == "" then 0 else 1)
    && (forall i :: 0 <= i < |ps| ==>
          if AllDigits(text) then ps[i].Digits? else if AllInCharset(text) then ps[i].Text? else ps[i].Bytes?)
  }

  function BytesOfText(text: string): (bytes: seq<Byte>)
    requires forall i :: 0 <= i < |text| ==> text[i] as int < 256
    ensures |bytes| == |text|
  {
    seq(|text|, i requires 0 <= i < |text| => text[i] as int)
  }

  /** The payloads a text is encoded as: none, digits, characters of the charset, or its bytes. */
  function TextPayloads(text: string): (ps: seq<Payload>)
    requires forall i :: 0 <= i < |text| ==> text[i] as int < 256
    ensures SayText(ps, text)
  {
    ModesOfText(text);
    assert Says(Bytes(BytesOfText(text))) == text;
    if text == "" then []
    else if IsNumeric(text) then [Digits(text)]
    else if IsAlphanumeric(text) then [Text(text)]
    else [Bytes(BytesOfText(text))]
  }

  lemma {:induction false} ModesOfText(text: string)
    ensures IsNumeric(text) <==> AllDigits(text)
    ensures IsAlphanumeric(text) <==> AllInCharset(text)
  {
    hide CharValue;
    forall i | 0 <= i < |text| ensures CharValue(text[i]) < 45 <==> text[i] in ALPHANUMERIC_CHARSET {
      CharRoundTrip(text[i]);
    }
  }
}
