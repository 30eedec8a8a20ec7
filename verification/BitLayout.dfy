/** Which bits stand where in the data of a symbol, said in numbers. */
module BitLayout {
  import opened Bits
  import opened Segments
  import opened BitStream

  // ---------- bits of a number ----------

  lemma {:induction false} ShrBounds(a: nat, k: nat)
    ensures Shr(a, k) * Pow2(k) <= a < (Shr(a, k) + 1) * Pow2(k)
  {
    if k != 0 {
      ShrBounds(a / 2, k - 1);
      DoubleBounds(Shr(a, k), Pow2(k - 1), a);
    }
  }

  lemma DoubleBounds(q: nat, p: nat, a: nat)
    requires q * p <= a / 2 < (q + 1) * p
    ensures q * (2 * p) <= a < (q + 1) * (2 * p)
  {
    var x := q * p;
    assert (q + 1) * p == x + p && q * (2 * p) == 2 * x && (q + 1) * (2 * p) == 2 * x + 2 * p;
  }

  lemma ProductGrows(q: nat, r: nat, p: nat)
    requires q < r
    ensures (q + 1) * p <= r * p
  {
    assert r * p == (q + 1) * p + (r - q - 1) * p;
  }

  lemma QuotientUnique(a: nat, p: nat, q: nat, r: nat)
    requires q * p <= a < (q + 1) * p && r * p <= a < (r + 1) * p
    ensures q == r
  {
    if q < r {
      ProductGrows(q, r, p);
      assert false;
    } else if r < q {
      ProductGrows(r, q, p);
      assert false;
    }
  }

  /** Bit `i` of a number is the parity of its quotient by 2^i. */
  lemma {:induction false} BitIsParity(a: nat, i: nat, q: nat)
    requires q * Pow2(i) <= a < (q + 1) * Pow2(i)
    ensures GetBit(a, i) <==> q % 2 == 1
  {
    hide Pow2, Shr;
    ShrBounds(a, i);
    QuotientUnique(a, Pow2(i), q, Shr(a, i));
  }

  lemma {:induction false} FromSnoc(a: seq<bool>, b: bool)
    ensures FromBits(a + [b]) == 2 * FromBits(a) + (if b then 1 else 0)
  {
    assert (a + [b])[..|a|] == a;
  }

  lemma {:induction false} FromConcat(a: seq<bool>, b: seq<bool>)
    ensures FromBits(a + b) == FromBits(a) * Pow2(|b|) + FromBits(b)
  {
    hide Pow2, FromBits;
    if b == [] {
      NoBits();
      assert a + b == a;
    } else {
      FromConcat(a, b[..|b| - 1]);
      FromConcatStep(a, b[..|b| - 1], b[|b| - 1]);
      assert b == b[..|b| - 1] + [b[|b| - 1]];
    }
  }

  lemma {:induction false} NoBits()
    ensures FromBits([]) == 0 && Pow2(0) == 1
  {
  }

  lemma {:induction false} FromConcatStep(a: seq<bool>, front: seq<bool>, last: bool)
    requires FromBits(a + front) == FromBits(a) * Pow2(|front|) + FromBits(front)
    ensures FromBits(a + (front + [last])) == FromBits(a) * Pow2(|front| + 1) + FromBits(front + [last])
  {
    hide FromBits;
    assert a + (front + [last]) == a + front + [last];
    FromSnoc(a + front, last);
    FromSnoc(front, last);
    var x, p := FromBits(a), Pow2(|front|);
    assert x * (2 * p) == 2 * (x * p);
  }

  // ---------- numeric mode ----------

  /** Every full group of three digits is ten bits that denote it; a last digit has four, a last two have seven. */
  lemma {:induction false} NumericAt(s: string, k: nat)
    requires IsNumeric(s)
    ensures |PackNumeric(s)| == |s| / 3 * 10 + (if |s| % 3 == 0 then 0 else if |s| % 3 == 1 then 4 else 7)
    ensures 3 * k + 3 <= |s| ==>
              FromBits(PackNumeric(s)[10 * k..10 * k + 10]) ==
                Digit(s[3 * k]) * 100 + Digit(s[3 * k + 1]) * 10 + Digit(s[3 * k + 2])
    ensures 3 * k + 1 == |s| ==> FromBits(PackNumeric(s)[10 * k..]) == Digit(s[3 * k])
    ensures 3 * k + 2 == |s| ==> FromBits(PackNumeric(s)[10 * k..]) == Digit(s[3 * k]) * 10 + Digit(s[3 * k + 1])
    decreases |s|
  {
    hide FromBits, ToBits, Value, Pow2;
    PackNumericLength(s);
    if |s| > 3 {
      var head, tail, bits := s[..3], s[3..], PackNumeric(s);
      GroupAt(head);
      assert bits == ToBits(Value(head), 10) + PackNumeric(tail);
      if k == 0 {
        assert bits[..10] == ToBits(Value(head), 10);
      } else if 3 * k < |s| {
        NumericAt(tail, k - 1);
        Shifted(ToBits(Value(head), 10), PackNumeric(tail), 10 * (k - 1));
        if 3 * k + 3 <= |s| {
          assert bits[10 * k..10 * k + 10] == bits[10 * k..][..10];
        }
      }
    } else {
      GroupAt(s);
      if k == 0 {
        assert PackNumeric(s)[0..] == PackNumeric(s) && PackNumeric(s)[..|PackNumeric(s)|] == PackNumeric(s);
      }
    }
  }

  lemma {:induction false} Shifted(a: seq<bool>, b: seq<bool>, i: nat)
    requires i <= |b|
    ensures (a + b)[|a| + i..] == b[i..]
    ensures forall n :: 0 <= n <= |b| - i ==> b[i..][..n] == b[i..i + n]
  {
  }

  /** The value of a digit. */
  function Digit(c: char): int {
    c as int - '0' as int
  }

  lemma {:induction false} GroupAt(s: string)
    requires IsNumeric(s) && |s| <= 3
    ensures |s| == 3 ==> FromBits(ToBits(Value(s), 10)) == Digit(s[0]) * 100 + Digit(s[1]) * 10 + Digit(s[2])
    ensures |s| == 2 ==> FromBits(ToBits(Value(s), 7)) == Digit(s[0]) * 10 + Digit(s[1])
    ensures |s| == 1 ==> FromBits(ToBits(Value(s), 4)) == Digit(s[0])
  {
    hide FromBits, ToBits, Pow2;
    SmallPowers();
    ValueBounds(s);
    ShortValue(s);
    if |s| > 0 {
      FromToBits(Value(s), GroupBits(|s|));
    }
  }

  lemma {:induction false} ShortValue(s: string)
    requires IsNumeric(s) && |s| <= 3
    ensures |s| == 3 ==> Value(s) == Digit(s[0]) * 100 + Digit(s[1]) * 10 + Digit(s[2])
    ensures |s| == 2 ==> Value(s) == Digit(s[0]) * 10 + Digit(s[1])
    ensures |s| == 1 ==> Value(s) == Digit(s[0])
  {
    if |s| > 1 {
      ShortValue(s[..|s| - 1]);
    } else if |s| == 1 {
      assert s[..0] == "";
    }
  }

  // ---------- alphanumeric mode ----------

  /** The code of a character: digits, then letters, then nine symbols; 45 for all others. */
  function Code(c: char): nat {
    if '0' <= c <= '9' then c as int - '0' as int
    else if 'A' <= c <= 'Z' then c as int - 'A' as int + 10
    else
      match c
      case ' ' => 36
      case '$' => 37
      case '%' => 38
      case '*' => 39
      case '+' => 40
      case '-' => 41
      case '.' => 42
      case '/' => 43
      case ':' => 44
      case _ => 45
  }

  lemma {:induction false} CharsetAt(k: nat)
    requires k < 45
    ensures |ALPHANUMERIC_CHARSET| == 45 && Code(ALPHANUMERIC_CHARSET[k]) == k
  {
    hide Code;
    var s := ALPHANUMERIC_CHARSET;
    if k < 10 {
      DigitsAt(k);
      assert s[k] == "0123456789"[k];
    } else if k < 23 {
      FirstLettersAt(k - 10);
      assert s[k] == "ABCDEFGHIJKLM"[k - 10];
    } else if k < 36 {
      LastLettersAt(k - 23);
      assert s[k] == "NOPQRSTUVWXYZ"[k - 23];
    } else {
      SymbolsAt(k - 36);
      assert s[k] == " $%*+-./:"[k - 36];
    }
  }

  lemma {:induction false} DigitsAt(k: nat)
    requires k < 10
    ensures Code("0123456789"[k]) == k
  {
  }

  lemma {:induction false} FirstLettersAt(k: nat)
    requires k < 13
    ensures Code("ABCDEFGHIJKLM"[k]) == k + 10
  {
  }

  lemma {:induction false} LastLettersAt(k: nat)
    requires k < 13
    ensures Code("NOPQRSTUVWXYZ"[k]) == k + 23
  {
  }

  lemma {:induction false} SymbolsAt(k: nat)
    requires k < 9
    ensures Code(" $%*+-./:"[k]) == k + 36
  {
  }

  /** No two characters have the same code. */
  lemma {:induction false} CodeIsInjective(c: char, d: char)
    requires Code(c) == Code(d) < 45
    ensures c == d
  {
  }

  lemma {:induction false} CharValueIsCode(c: char)
    ensures CharValue(c) == Code(c)
  {
    hide Code;
    var k := CharValue(c);
    CodeBound(c);
    if k < 45 {
      CharsetAt(k);
    } else if Code(c) < 45 {
      CharsetAt(Code(c));
      CodeIsInjective(c, ALPHANUMERIC_CHARSET[Code(c)]);
      assert false;
    }
  }

  lemma {:induction false} CodeBound(c: char)
    ensures Code(c) <= 45
  {
  }

  /** Every pair of characters is eleven bits that denote the first code times 45 plus the second; a last one has six. */
  lemma {:induction false} TextAt(s: string, k: nat)
    requires IsAlphanumeric(s)
    ensures |PackText(s)| == |s| / 2 * 11 + (if |s| % 2 == 0 then 0 else 6)
    ensures 2 * k + 2 <= |s| ==>
              FromBits(PackText(s)[11 * k..11 * k + 11]) == Code(s[2 * k]) * 45 + Code(s[2 * k + 1])
    ensures 2 * k + 1 == |s| ==> FromBits(PackText(s)[11 * k..]) == Code(s[2 * k])
    decreases |s|
  {
    hide FromBits, ToBits, CharValue, Code, Pow2;
    PackTextLength(s);
    SmallPowers();
    if |s| == 1 {
      FromToBits(CharValue(s[0]), 6);
      CharValueIsCode(s[0]);
      assert PackText(s)[0..] == PackText(s);
    } else if |s| > 1 {
      var v, tail, bits := CharValue(s[0]) * 45 + CharValue(s[1]), s[2..], PackText(s);
      FromToBits(v, 11);
      CharValueIsCode(s[0]);
      CharValueIsCode(s[1]);
      if k == 0 {
        assert bits[..11] == ToBits(v, 11);
      } else if 2 * k < |s| {
        TextAt(tail, k - 1);
        Shifted(ToBits(v, 11), PackText(tail), 11 * (k - 1));
        if 2 * k + 2 <= |s| {
          assert bits[11 * k..11 * k + 11] == bits[11 * k..][..11];
        }
      }
    }
  }

  // ---------- designators ----------

  /** Eight bits with a leading 0, sixteen with a leading 10, or twenty-four with a leading 110. */
  lemma {:induction false} DesignatorAt(v: nat)
    requires v < 1000000
    ensures var bits := PackDesignator(v);
            if v < 0x80 then |bits| == 8 && FromBits(bits) == v
            else if v < 0x4000 then |bits| == 16 && FromBits(bits) == 0x8000 + v
            else |bits| == 24 && FromBits(bits) == 0xC00000 + v
  {
    hide FromBits, ToBits, Pow2;
    SmallPowers();
    SmallestPowers();
    if v < 0x80 {
      FromToBits(v, 8);
    } else if v < 0x4000 {
      FromConcat(ToBits(2, 2), ToBits(v, 14));
      FromToBits(2, 2);
      FromToBits(v, 14);
    } else {
      FromConcat(ToBits(6, 3), ToBits(v, 21));
      FromToBits(6, 3);
      FromToBits(v, 21);
    }
  }

  lemma {:induction false} SmallestPowers()
    ensures Pow2(2) == 4 && Pow2(3) == 8
  {
  }

  // ---------- headers ----------

  /** The width of the character count: by mode, and by versions 1 to 9, 10 to 26 and 27 to 40. */
  function CountWidth(mode: Mode, ver: nat): nat {
    match mode
    case NUMERIC => if ver <= 9 then 10 else if ver <= 26 then 12 else 14
    case ALPHANUMERIC => if ver <= 9 then 9 else if ver <= 26 then 11 else 13
    case BYTE => if ver <= 9 then 8 else 16
    case ECI => 0
  }

  /** A segment is four bits that denote its mode, the character count, and its data. */
  lemma {:induction false} HeaderAt(seg: Segment, ver: nat)
    requires 1 <= ver <= 40 && seg.numChars < Pow2(CountWidth(seg.mode, ver))
    ensures var bits, w := SegmentBits(seg, ver), CountWidth(seg.mode, ver);
            && |bits| == 4 + w + |seg.data|
            && FromBits(bits[..4]) ==
                 (match seg.mode case NUMERIC => 1 case ALPHANUMERIC => 2 case BYTE => 4 case ECI => 7)
            && FromBits(bits[4..4 + w]) == seg.numChars
            && bits[4 + w..] == seg.data
  {
    hide FromBits, ToBits, Pow2;
    SmallPowers();
    var bits, w := SegmentBits(seg, ver), CountWidth(seg.mode, ver);
    assert w == seg.mode.CountBits(ver);
    FromToBits(seg.mode.ModeBits(), 4);
    FromToBits(seg.numChars, w);
    assert bits[..4] == ToBits(seg.mode.ModeBits(), 4);
    assert bits[4..4 + w] == ToBits(seg.numChars, w);
  }

  /** The segments stand in the stream in their order. */
  lemma {:induction false} StreamAt(segs: seq<Segment>, i: nat, ver: nat)
    requires i < |segs|
    ensures Stream(segs, ver) == Stream(segs[..i], ver) + SegmentBits(segs[i], ver) + Stream(segs[i + 1..], ver)
  {
    hide SegmentBits;
    if i == 0 {
      EmptyStream(ver);
      assert segs[..0] == [];
    } else {
      StreamAt(segs[1..], i - 1, ver);
      assert segs[..i][1..] == segs[1..][..i - 1] && segs[1..][i..] == segs[i + 1..];
    }
  }

  // ---------- padding ----------

  /** The first whole byte after the terminator. */
  function Aligned(len: nat, capacity: nat): nat {
    ((if len + 4 <= capacity then len + 4 else capacity) + 7) / 8 * 8
  }

  lemma {:induction false} FillAt(bits: seq<bool>, capacity: nat, pad: Byte, k: nat)
    requires |bits| % 8 == 0 && capacity % 8 == 0 && |bits| + 8 * k + 8 <= capacity && (pad == 0xEC || pad == 0x11)
    ensures |Fill(bits, capacity, pad)| == capacity
    ensures FromBits(Fill(bits, capacity, pad)[|bits| + 8 * k..|bits| + 8 * k + 8]) ==
            if k % 2 == 0 then pad else 0xEC + 0x11 - pad
    decreases k
  {
    hide FromBits, ToBits, Pow2;
    var next, other := bits + ToBits(pad, 8), if pad == 0xEC then 0x11 else 0xEC;
    assert Fill(bits, capacity, pad) == Fill(next, capacity, other);
    if k == 0 {
      ByteRange();
      FromToBits(pad, 8);
      var filled := Fill(next, capacity, other);
      assert next <= filled;
      assert filled[|bits|..|bits| + 8] == next[|bits|..] == ToBits(pad, 8);
    } else {
      FillAt(next, capacity, other, k - 1);
      assert |next| + 8 * (k - 1) == |bits| + 8 * k;
    }
  }

  /** After the stream come zeros up to the aligned end of the terminator, and then 0xEC and 0x11 in turn. */
  lemma {:induction false} PadAt(bits: seq<bool>, capacity: nat, k: nat)
    requires |bits| <= capacity && capacity % 8 == 0
    ensures var r, a := Pad(bits, capacity), Aligned(|bits|, capacity);
            && |r| == capacity && a <= capacity && r[..|bits|] == bits && |bits| <= a
            && (forall i :: |bits| <= i < a ==> !r[i])
            && (a + 8 * k + 8 <= capacity ==> FromBits(r[a + 8 * k..a + 8 * k + 8]) == if k % 2 == 0 then 0xEC else 0x11)
  {
    hide FromBits, Fill;
    var n := Terminator(|bits|, capacity);
    var terminated := bits + Zeros(n);
    PadAligns(|terminated|, capacity);
    var aligned := terminated + Zeros((8 - |terminated| % 8) % 8);
    assert |aligned| == Aligned(|bits|, capacity);
    assert aligned <= Pad(bits, capacity);
    assert forall i :: |bits| <= i < |aligned| ==> !aligned[i];
    if |aligned| + 8 * k + 8 <= capacity {
      FillAt(aligned, capacity, 0xEC, k);
    }
  }
}
