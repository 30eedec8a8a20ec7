/**
 The format and version words: a few data bits protected by a BCH code.  Both are computed by
 the same shift-and-reduce loop, which is polynomial division over GF(2).
 */
module FormatInfo {
  import opened Bits
  import opened GaloisField
  import opened Tables

  /** One shift of the register of `k` bits with generator `gen`. */
  function BchStep(rem: nat, k: nat, gen: nat): nat
    requires k >= 1
  {
    Xor(2 * rem, Shr(rem, k - 1) * gen)
  }

  function Bch(data: nat, k: nat, gen: nat, n: nat): nat
    requires k >= 1
  {
    if n == 0 then data else BchStep(Bch(data, k, gen, n - 1), k, gen)
  }

  lemma {:induction false} ShrTop(rem: nat, k: nat)
    requires k >= 1 && rem < Pow2(k)
    ensures Shr(rem, k - 1) == if rem >= Pow2(k - 1) then 1 else 0
  {
    if k > 1 {
      ShrTop(rem / 2, k - 1);
    }
  }

  /** A generator of degree `k` keeps the register at `k` bits. */
  lemma {:induction false} BchStepBound(rem: nat, k: nat, gen: nat)
    requires k >= 1 && rem < Pow2(k) && Pow2(k) <= gen < 2 * Pow2(k)
    ensures BchStep(rem, k, gen) < Pow2(k)
  {
    hide Xor, Shr;
    ShrTop(rem, k);
    var p := Pow2(k);
    if rem >= Pow2(k - 1) {
      ShlIsProduct(1, k); ShlIsProduct(0, k);
      XorSplit(1, 2 * rem - p, 1, gen - p, k);
      XorSelf(1);
      XorBound(2 * rem - p, gen - p, k);
    } else {
      XorZero(2 * rem);
    }
  }

  lemma {:induction false} BchBound(data: nat, k: nat, gen: nat, n: nat)
    requires k >= 1 && data < Pow2(k) && Pow2(k) <= gen < 2 * Pow2(k)
    ensures Bch(data, k, gen, n) < Pow2(k)
  {
    if n != 0 {
      BchBound(data, k, gen, n - 1);
      BchStepBound(Bch(data, k, gen, n - 1), k, gen);
    }
  }

  /** data * x^n plus the register, as a polynomial over GF(2), is a multiple of the generator. */
  lemma {:induction false} BchDivides(data: nat, k: nat, gen: nat, n: nat) returns (q: nat)
    requires k >= 1 && data < Pow2(k) && Pow2(k) <= gen < 2 * Pow2(k)
    ensures Xor(Shl(data, n), Bch(data, k, gen, n)) == Clmul(gen, q)
  {
    hide Xor, Shr, Clmul;
    if n == 0 {
      XorSelf(data);
      ClmulZero(gen);
      q := 0;
    } else {
      var rem := Bch(data, k, gen, n - 1);
      BchBound(data, k, gen, n - 1);
      ShrTop(rem, k);
      var q0 := BchDivides(data, k, gen, n - 1);
      var t := Shr(rem, k - 1);
      XorDouble(Shl(data, n - 1), rem);
      ClmulDouble(gen, q0);
      XorAssociates(Shl(data, n), 2 * rem, t * gen);
      ClmulXorRight(gen, 2 * q0, t);
      ClmulOne(gen); ClmulZero(gen);
      q := Xor(2 * q0, t);
    }
  }

  // ---------- format word ----------

  const FORMAT_GENERATOR := 0x537
  const FORMAT_MASK := 0x5412

  /** The two bits that stand for an error correction level. */
  function LevelBits(ecl: Ecc): nat {
    match ecl
    case LOW => 1
    case MEDIUM => 0
    case QUARTILE => 3
    case HIGH => 2
  }

  function LevelOf(bits: nat): Ecc {
    if bits == 1 then LOW else if bits == 0 then MEDIUM else if bits == 3 then QUARTILE else HIGH
  }

  function FormatData(ecl: Ecc, mask: nat): nat {
    LevelBits(ecl) * 8 + mask
  }

  /** The fifteen format bits. */
  function FormatWord(ecl: Ecc, mask: nat): nat {
    var data := FormatData(ecl, mask);
    Xor(data * 1024 + Bch(data, 10, FORMAT_GENERATOR, 10), FORMAT_MASK)
  }

  lemma {:induction false} Powers()
    ensures Pow2(10) == 1024 && Pow2(12) == 4096 && Pow2(15) == 0x8000
  {
  }

  /** The word fits in fifteen bits, and level and mask can be read off it. */
  lemma {:induction false} FormatWordReads(ecl: Ecc, mask: nat)
    requires mask < 8
    ensures FormatWord(ecl, mask) < 0x8000
    ensures Xor(FormatWord(ecl, mask), FORMAT_MASK) / 1024 == FormatData(ecl, mask)
  {
    hide Xor, Bch, Pow2;
    Powers();
    var data := FormatData(ecl, mask);
    BchBound(data, 10, FORMAT_GENERATOR, 10);
    var word := data * 1024 + Bch(data, 10, FORMAT_GENERATOR, 10);
    XorBound(word, FORMAT_MASK, 15);
    XorCancels(word, FORMAT_MASK);
  }

  lemma {:induction false} LevelRoundTrip(ecl: Ecc, mask: nat)
    requires mask < 8
    ensures LevelOf(FormatData(ecl, mask) / 8) == ecl
    ensures FormatData(ecl, mask) % 8 == mask
  {
  }

  // ---------- version word ----------

  const VERSION_GENERATOR := 0x1F25

  /** The eighteen version bits. */
  function VersionWord(ver: nat): nat {
    ver * 4096 + Bch(ver, 12, VERSION_GENERATOR, 12)
  }

  /** The word fits in eighteen bits, and the version is its top six. */
  lemma {:induction false} VersionWordReads(ver: nat)
    requires IsVersion(ver)
    ensures VersionWord(ver) < 0x40000
    ensures VersionWord(ver) / 4096 == ver
  {
    hide Bch, Pow2;
    Powers();
    BchBound(ver, 12, VERSION_GENERATOR, 12);
  }
}
