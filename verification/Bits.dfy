/**
 Bit-level arithmetic on natural numbers: powers of two, exclusive or, the big-endian bit
 representation, and the appendable bit buffer.
 */
module Bits {

  /** A `uint8_t`. */
  type Byte = n: nat | n < 256

  function Pow2(k: nat): (p: nat)
    ensures p >= 1
  {
    if k == 0 then 1 else 2 * Pow2(k - 1)
  }

  lemma {:induction false} ByteRange()
    ensures Pow2(8) == 256
  {
    assert Pow2(4) == 16;
  }

  // ---------- exclusive or ----------

  /** Bitwise exclusive or; read as polynomials over GF(2), this is addition. */
  function Xor(a: nat, b: nat): nat {
    if a == 0 then b
    else if b == 0 then a
    else 2 * Xor(a / 2, b / 2) + (a + b) % 2
  }

  lemma {:induction false} XorZero(a: nat)
    ensures Xor(a, 0) == a
    ensures Xor(0, a) == a
  {
  }

  lemma {:induction false} XorHalf(a: nat, b: nat)
    ensures Xor(a, b) / 2 == Xor(a / 2, b / 2)
    ensures Xor(a, b) % 2 == (a % 2 + b % 2) % 2
  {
  }

  lemma {:induction false} XorCommutes(a: nat, b: nat)
    ensures Xor(a, b) == Xor(b, a)
  {
    if a != 0 && b != 0 {
      XorCommutes(a / 2, b / 2);
    }
  }

  lemma {:induction false} XorAssociates(a: nat, b: nat, c: nat)
    ensures Xor(Xor(a, b), c) == Xor(a, Xor(b, c))
  {
    hide Xor;
    XorZero(a); XorZero(b); XorZero(c); XorZero(Xor(a, b)); XorZero(Xor(b, c));
    if a != 0 && b != 0 && c != 0 {
      XorAssociates(a / 2, b / 2, c / 2);
      LeftHalf(a, b, c);
      RightHalf(a, b, c);
      Parities(a, b, c, Xor(a, b), Xor(b, c));
      SameHalves(Xor(Xor(a, b), c), Xor(a, Xor(b, c)));
    }
  }

  lemma LeftHalf(a: nat, b: nat, c: nat)
    ensures Xor(Xor(a, b), c) / 2 == Xor(Xor(a / 2, b / 2), c / 2)
    ensures Xor(Xor(a, b), c) % 2 == (Xor(a, b) + c) % 2 && Xor(a, b) % 2 == (a + b) % 2
  {
    hide Xor;
    XorHalf(a, b);
    XorHalf(Xor(a, b), c);
  }

  lemma RightHalf(a: nat, b: nat, c: nat)
    ensures Xor(a, Xor(b, c)) / 2 == Xor(a / 2, Xor(b / 2, c / 2))
    ensures Xor(a, Xor(b, c)) % 2 == (a + Xor(b, c)) % 2 && Xor(b, c) % 2 == (b + c) % 2
  {
    hide Xor;
    XorHalf(b, c);
    XorHalf(a, Xor(b, c));
  }

  lemma Parities(a: nat, b: nat, c: nat, ab: nat, bc: nat)
    requires ab % 2 == (a + b) % 2 && bc % 2 == (b + c) % 2
    ensures (ab + c) % 2 == (a + bc) % 2
  {
  }

  lemma SameHalves(l: nat, r: nat)
    requires l / 2 == r / 2 && l % 2 == r % 2
    ensures l == r
  {
  }

  lemma {:induction false} XorSelf(a: nat)
    ensures Xor(a, a) == 0
  {
    if a != 0 {
      XorSelf(a / 2);
    }
  }

  /** Exclusive or with the same value twice does nothing. */
  lemma {:induction false} XorCancels(a: nat, b: nat)
    ensures Xor(Xor(a, b), b) == a
    ensures Xor(b, Xor(b, a)) == a
  {
    hide Xor;
    XorAssociates(a, b, b); XorSelf(b); XorZero(a);
    XorAssociates(b, b, a);
  }

  lemma {:induction false} XorSwap(a: nat, b: nat, c: nat, d: nat)
    ensures Xor(Xor(a, b), Xor(c, d)) == Xor(Xor(a, c), Xor(b, d))
  {
    hide Xor;
    XorAssociates(a, b, Xor(c, d)); XorAssociates(b, c, d); XorCommutes(b, c);
    XorAssociates(c, b, d); XorAssociates(a, c, Xor(b, d));
  }

  lemma {:induction false} XorBound(a: nat, b: nat, k: nat)
    requires a < Pow2(k) && b < Pow2(k)
    ensures Xor(a, b) < Pow2(k)
  {
    if a != 0 && b != 0 {
      XorBound(a / 2, b / 2, k - 1);
    }
  }

  lemma {:induction false} XorDouble(a: nat, b: nat)
    ensures Xor(2 * a, 2 * b) == 2 * Xor(a, b)
  {
    if a == 0 || b == 0 {
    } else {
      assert 2 * a / 2 == a && 2 * b / 2 == b && (2 * a + 2 * b) % 2 == 0;
    }
  }

  /** `a << k`. */
  function Shl(a: nat, k: nat): nat {
    if k == 0 then a else 2 * Shl(a, k - 1)
  }

  lemma {:induction false} ShlIsProduct(a: nat, k: nat)
    ensures Shl(a, k) == a * Pow2(k)
  {
    if k != 0 {
      ShlIsProduct(a, k - 1);
    }
  }

  /** `a >> k`. */
  function Shr(a: nat, k: nat): nat {
    if k == 0 then a else Shr(a / 2, k - 1)
  }

  lemma {:induction false} ShrStep(a: nat, k: nat)
    ensures Shr(a, k + 1) == Shr(a, k) / 2
  {
    if k != 0 {
      ShrStep(a / 2, k - 1);
    }
  }

  lemma {:induction false} ShrIsZero(a: nat, k: nat)
    ensures Shr(a, k) == 0 <==> a < Pow2(k)
  {
    if k != 0 {
      ShrIsZero(a / 2, k - 1);
    }
  }

  /** Exclusive or acts on the part from bit `k` up and on the part below it separately. */
  lemma {:induction false} XorSplit(a: nat, b: nat, c: nat, d: nat, k: nat)
    requires b < Pow2(k) && d < Pow2(k)
    ensures Xor(Shl(a, k) + b, Shl(c, k) + d) == Shl(Xor(a, c), k) + Xor(b, d)
  {
    hide Xor;
    if k == 0 {
      XorZero(0);
    } else {
      var l, r := Shl(a, k) + b, Shl(c, k) + d;
      assert l / 2 == Shl(a, k - 1) + b / 2 && l % 2 == b % 2;
      assert r / 2 == Shl(c, k - 1) + d / 2 && r % 2 == d % 2;
      XorSplit(a, b / 2, c, d / 2, k - 1);
      XorHalf(l, r); XorHalf(b, d);
    }
  }

  // ---------- big-endian bits ----------

  /** The `len` low-order bits of `val`, most significant first. */
  function ToBits(val: nat, len: nat): (r: seq<bool>)
    ensures |r| == len
  {
    if len == 0 then [] else ToBits(val / 2, len - 1) + [val % 2 == 1]
  }

  /** The number a bit string denotes, most significant bit first. */
  function FromBits(bits: seq<bool>): nat {
    if bits == [] then 0
    else 2 * FromBits(bits[..|bits| - 1]) + (if bits[|bits| - 1] then 1 else 0)
  }

  lemma {:induction false} FromToBits(val: nat, len: nat)
    requires val < Pow2(len)
    ensures FromBits(ToBits(val, len)) == val
  {
    if len != 0 {
      FromToBits(val / 2, len - 1);
      assert ToBits(val, len)[..len - 1] == ToBits(val / 2, len - 1);
    }
  }

  lemma {:induction false} ToFromBits(bits: seq<bool>)
    ensures FromBits(bits) < Pow2(|bits|)
    ensures ToBits(FromBits(bits), |bits|) == bits
  {
    if bits != [] {
      var front := bits[..|bits| - 1];
      ToFromBits(front);
      assert bits == front + [bits[|bits| - 1]];
    }
  }

  /** Bit `i` of `val`. */
  function GetBit(val: nat, i: nat): bool {
    Shr(val, i) % 2 == 1
  }

  lemma {:induction false} ToBitsIndex(val: nat, len: nat, i: nat)
    requires i < len
    ensures ToBits(val, len)[i] == GetBit(val, len - 1 - i)
  {
    if i < len - 1 {
      ToBitsIndex(val / 2, len - 1, i);
    }
  }

  /** An appendable bit string. */
  class BitBuffer {
    var bits: seq<bool>

    constructor ()
      ensures bits == []
    {
      bits := [];
    }

    /** Appends the `len` low-order bits of `val`, or reports that they do not fit. */
    method AppendBits(val: nat, len: int) returns (ok: bool)
      modifies this
      ensures ok <==> 0 <= len <= 31 && val < Pow2(len)
      ensures bits == if ok then old(bits) + ToBits(val, len) else old(bits)
    {
      if len < 0 || len > 31 {
        return false;
      }
      ShrIsZero(val, len);
      if Shr(val, len) != 0 {
        return false;
      }
      var i := len - 1;
      while i >= 0
        invariant -1 <= i < len
        invariant bits == old(bits) + ToBits(Shr(val, i + 1), len - 1 - i)
      {
        ShrStep(val, i);
        bits := bits + [GetBit(val, i)];
        i := i - 1;
      }
      return true;
    }
  }
}
