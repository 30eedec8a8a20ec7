/**
 The field GF(2^8) with reduction polynomial 0x11D.

 A natural number read in binary is a polynomial over GF(2): `Xor` adds two of them and
 `Clmul` multiplies them.  `Mul`, the function the shift-and-reduce loop computes, is shown to
 be the unique remainder of that product modulo 0x11D, and the ring laws of the field
 follow from the ring laws of polynomials.
 */
module GaloisField {
  import opened Bits

  const MODULUS: nat := 0x11D

  // ---------- polynomials over GF(2) ----------

  /** The carry-less product: multiplication of polynomials over GF(2). */
  function Clmul(x: nat, y: nat): nat {
    if y == 0 then 0 else Xor(2 * Clmul(x, y / 2), if y % 2 == 1 then x else 0)
  }

  function If(c: bool, x: nat): nat {
    if c then x else 0
  }

  lemma {:induction false} ClmulStep(x: nat, y: nat)
    ensures Clmul(x, y) == Xor(2 * Clmul(x, y / 2), If(y % 2 == 1, x))
  {
    XorZero(0);
  }

  lemma {:induction false} ClmulZero(y: nat)
    ensures Clmul(0, y) == 0
    ensures Clmul(y, 0) == 0
  {
    if y != 0 {
      ClmulZero(y / 2);
    }
  }

  lemma {:induction false} ClmulOne(y: nat)
    ensures Clmul(1, y) == y
    ensures Clmul(y, 1) == y
  {
    hide Xor;
    if y != 0 {
      ClmulOne(y / 2);
      ClmulStep(1, y);
      XorEven(y / 2, y % 2);
    }
    ClmulStep(y, 1);
    XorZero(y);
  }

  lemma {:induction false} XorEven(a: nat, b: nat)
    requires b < 2
    ensures Xor(2 * a, b) == 2 * a + b
  {
    hide Xor;
    XorHalf(2 * a, b);
    XorZero(a);
  }

  /** Multiplication distributes over exclusive or on the right. */
  lemma {:induction false} ClmulXorRight(x: nat, a: nat, b: nat)
    ensures Clmul(x, Xor(a, b)) == Xor(Clmul(x, a), Clmul(x, b))
  {
    hide Xor;
    XorZero(a); XorZero(b); XorZero(Clmul(x, a)); XorZero(Clmul(x, b));
    if a != 0 && b != 0 {
      hide Clmul;
      ClmulXorRight(x, a / 2, b / 2);
      XorHalf(a, b);
      ClmulStep(x, a); ClmulStep(x, b); ClmulStep(x, Xor(a, b));
      var p, q := Clmul(x, a / 2), Clmul(x, b / 2);
      XorDouble(p, q);
      XorSwap(2 * p, If(a % 2 == 1, x), 2 * q, If(b % 2 == 1, x));
      XorSelf(x); XorZero(x); XorZero(0);
    }
  }

  /** Multiplication distributes over exclusive or on the left. */
  lemma {:induction false} ClmulXorLeft(a: nat, b: nat, y: nat)
    ensures Clmul(Xor(a, b), y) == Xor(Clmul(a, y), Clmul(b, y))
  {
    hide Xor;
    XorZero(0);
    if y != 0 {
      hide Clmul;
      ClmulXorLeft(a, b, y / 2);
      ClmulStep(a, y); ClmulStep(b, y); ClmulStep(Xor(a, b), y);
      var p, q := Clmul(a, y / 2), Clmul(b, y / 2);
      XorDouble(p, q);
      XorSwap(2 * p, If(y % 2 == 1, a), 2 * q, If(y % 2 == 1, b));
    }
  }

  lemma {:induction false} ClmulDouble(x: nat, y: nat)
    ensures Clmul(2 * x, y) == 2 * Clmul(x, y)
    ensures Clmul(x, 2 * y) == 2 * Clmul(x, y)
  {
    hide Xor;
    ClmulStep(x, 2 * y);
    XorZero(2 * Clmul(x, y));
    if y != 0 {
      ClmulDouble(x, y / 2);
      ClmulStep(x, y); ClmulStep(2 * x, y);
      XorDouble(2 * Clmul(x, y / 2), If(y % 2 == 1, x));
    }
  }

  lemma {:induction false} ClmulCommutes(x: nat, y: nat)
    ensures Clmul(x, y) == Clmul(y, x)
    decreases y
  {
    hide Xor;
    if y == 0 {
      ClmulZero(x);
    } else {
      var h, b := y / 2, y % 2;
      ClmulCommutes(x, h);
      ClmulStep(x, y);
      XorEven(h, b);
      ClmulXorLeft(2 * h, b, x);
      ClmulDouble(h, x);
      ClmulOne(x);
      ClmulZero(x);
    }
  }

  lemma {:induction false} ClmulAssociates(x: nat, y: nat, z: nat)
    ensures Clmul(Clmul(x, y), z) == Clmul(x, Clmul(y, z))
    decreases z
  {
    hide Xor;
    if z == 0 {
      ClmulZero(Clmul(x, y)); ClmulZero(x);
    } else {
      hide Clmul;
      var h := z / 2;
      ClmulAssociates(x, y, h);
      ClmulStep(Clmul(x, y), z); ClmulStep(y, z);
      ClmulXorRight(x, 2 * Clmul(y, h), If(z % 2 == 1, y));
      ClmulDouble(x, Clmul(y, h));
      ClmulZero(x);
    }
  }

  /** A nonzero multiple of the modulus has degree at least 8. */
  lemma {:induction false} MultipleIsLarge(q: nat)
    requires q != 0
    ensures Clmul(MODULUS, q) >= 256
  {
    hide Xor;
    ClmulStep(MODULUS, q);
    if q == 1 {
      ClmulOne(MODULUS);
    } else {
      MultipleIsLarge(q / 2);
      var a, b := 2 * Clmul(MODULUS, q / 2), If(q % 2 == 1, MODULUS);
      XorHigh(a, b);
    }
  }

  lemma {:induction false} XorHigh(a: nat, b: nat)
    requires a >= 512 && b < 512
    ensures Xor(a, b) >= 512
  {
    hide Xor;
    assert Pow2(9) == 512;
    var h, l := a / 512, a % 512;
    ShlIsProduct(h, 9); ShlIsProduct(0, 9);
    XorSplit(h, l, 0, b, 9);
    XorZero(h);
  }

  /** Remainders modulo 0x11D are unique. */
  lemma {:induction false} ResidueUnique(q1: nat, r1: Byte, q2: nat, r2: Byte)
    requires Xor(Clmul(MODULUS, q1), r1) == Xor(Clmul(MODULUS, q2), r2)
    ensures q1 == q2 && r1 == r2
  {
    hide Xor, Clmul;
    var m1, m2 := Clmul(MODULUS, q1), Clmul(MODULUS, q2);
    var q, r := Xor(q1, q2), Xor(r1, r2);
    ClmulXorRight(MODULUS, q1, q2);
    XorSwap(m1, m2, r1, r2);
    XorSelf(Xor(m1, r1));
    assert Xor(Clmul(MODULUS, q), r) == 0;
    XorCancels(Clmul(MODULUS, q), r); XorZero(r);
    assert Clmul(MODULUS, q) == r;
    assert Pow2(8) == 256;
    XorBound(r1, r2, 8);
    if q != 0 {
      MultipleIsLarge(q);
    }
    ClmulZero(MODULUS);
    XorCancels(q1, q2); XorZero(q2);
    XorCancels(r1, r2); XorZero(r2);
  }

  // ---------- the field ----------

  /** Addition, which is also subtraction. */
  function Add(a: Byte, b: Byte): Byte {
    assert Pow2(8) == 256;
    XorBound(a, b, 8);
    Xor(a, b)
  }

  /** Multiplication by x, reduced: one doubling step of the loop. */
  function Twice(z: Byte): (r: Byte)
    ensures r == Xor(2 * z, z / 128 * 0x11D)
  {
    TwiceBound(z);
    Xor(2 * z, z / 128 * 0x11D)
  }

  lemma {:induction false} TwiceBound(z: Byte)
    ensures Xor(2 * z, z / 128 * 0x11D) < 256
  {
    hide Xor;
    assert Pow2(8) == 256;
    var h := z / 128;
    assert Shl(h, 8) == 256 * h;
    XorSplit(h, 2 * z - 256 * h, h, h * 0x1D, 8);
    XorBound(2 * z - 256 * h, h * 0x1D, 8);
    XorSelf(h);
    assert Shl(0, 8) == 0;
    assert Shl(h, 8) + (2 * z - 256 * h) == 2 * z;
    assert Shl(h, 8) + h * 0x1D == h * 0x11D;
  }

  /** The field product, by doubling and adding from the top bit of `y` down. */
  function Mul(x: Byte, y: Byte): Byte
    decreases y
  {
    if y == 0 then 0 else Add(Twice(Mul(x, y / 2)), if y % 2 == 1 then x else 0)
  }

  /** The quotient that goes with `Mul`. */
  function Quotient(x: Byte, y: Byte): nat
    decreases y
  {
    if y == 0 then 0 else 2 * Quotient(x, y / 2) + Mul(x, y / 2) / 128
  }

  /** `Mul(x, y)` is the remainder of the polynomial product `x * y` modulo 0x11D. */
  lemma {:induction false} MulIsRemainder(x: Byte, y: Byte)
    ensures Clmul(x, y) == Xor(Clmul(MODULUS, Quotient(x, y)), Mul(x, y))
    decreases y
  {
    hide Xor;
    if y == 0 {
      ClmulZero(MODULUS);
      XorZero(0);
    } else {
      MulIsRemainder(x, y / 2);
      RemainderStep(x, y, Quotient(x, y / 2), Mul(x, y / 2));
    }
  }

  lemma {:induction false} RemainderStep(x: Byte, y: Byte, q: nat, z: Byte)
    requires z == Mul(x, y / 2)
    requires Clmul(x, y / 2) == Xor(Clmul(MODULUS, q), z)
    ensures Clmul(x, y) == Xor(Clmul(MODULUS, 2 * q + z / 128), Mul(x, y))
  {
    hide Xor, Mul, Clmul;
    var t, a := z / 128, If(y % 2 == 1, x);
    ClmulStep(x, y);
    XorDouble(Clmul(MODULUS, q), z);
    QuotientStep(q, t);
    MulStep(x, y);
    RegroupRemainder(Clmul(MODULUS, 2 * q), t * 0x11D, 2 * z, a);
  }

  lemma {:induction false} QuotientStep(q: nat, t: nat)
    requires t < 2
    ensures Clmul(MODULUS, 2 * q) == 2 * Clmul(MODULUS, q)
    ensures Clmul(MODULUS, 2 * q + t) == Xor(Clmul(MODULUS, 2 * q), t * 0x11D)
  {
    hide Xor;
    ClmulDouble(MODULUS, q);
    XorEven(q, t);
    ClmulXorRight(MODULUS, 2 * q, t);
    ClmulOne(MODULUS);
    ClmulZero(MODULUS);
  }

  lemma {:induction false} RegroupRemainder(m: nat, t: nat, z: nat, a: nat)
    ensures Xor(Xor(m, z), a) == Xor(Xor(m, t), Xor(Xor(z, t), a))
  {
    hide Xor;
    XorAssociates(m, z, a);
    XorAssociates(m, t, Xor(Xor(z, t), a));
    XorAssociates(t, Xor(z, t), a);
    XorCommutes(z, t);
    XorCancels(z, t);
  }

  /** Anything congruent to `Clmul(x, y)` and smaller than 256 is `Mul(x, y)`. */
  lemma {:induction false} MulUnique(x: Byte, y: Byte, q: nat, r: Byte)
    requires Clmul(x, y) == Xor(Clmul(MODULUS, q), r)
    ensures Mul(x, y) == r
  {
    MulIsRemainder(x, y);
    ResidueUnique(Quotient(x, y), Mul(x, y), q, r);
  }

  /** The shift-and-reduce loop; the check that its result fits in eight bits cannot fire. */
  method Multiply(x: Byte, y: Byte) returns (z: nat)
    ensures z == Mul(x, y)
    ensures z < 256
  {
    hide Xor, Mul;
    z := 0;
    var i := 7;
    assert Pow2(8) == 256;
    ShrIsZero(y, 8);
    MulZero(x);
    while i >= 0
      invariant -1 <= i <= 7
      invariant Shr(y, i + 1) < 256
      invariant z == Mul(x, Shr(y, i + 1))
    {
      ShrStep(y, i);
      ShrBound(y, i);
      z := Xor(2 * z, z / 128 * 0x11D);
      MulStep(x, Shr(y, i));
      z := Xor(z, Shr(y, i) % 2 * x);
      i := i - 1;
    }
  }

  lemma {:induction false} ShrBound(a: nat, k: nat)
    ensures Shr(a, k) <= a
  {
    if k != 0 {
      ShrBound(a / 2, k - 1);
    }
  }

  lemma {:induction false} MulStep(x: Byte, y: Byte)
    ensures Mul(x, y) == Xor(Twice(Mul(x, y / 2)), If(y % 2 == 1, x))
  {
    XorZero(0);
    assert Twice(0) == Xor(0, 0);
  }

  // ---------- field laws ----------

  lemma {:induction false} AddLaws(a: Byte, b: Byte, c: Byte)
    ensures Add(a, b) == Add(b, a)
    ensures Add(Add(a, b), c) == Add(a, Add(b, c))
    ensures Add(a, a) == 0
    ensures Add(a, 0) == a == Add(0, a)
  {
    XorCommutes(a, b); XorAssociates(a, b, c); XorSelf(a); XorZero(a);
  }

  lemma {:induction false} MulCommutes(x: Byte, y: Byte)
    ensures Mul(x, y) == Mul(y, x)
  {
    hide Xor, Clmul, Mul;
    MulIsRemainder(x, y);
    ClmulCommutes(x, y);
    MulUnique(y, x, Quotient(x, y), Mul(x, y));
  }

  lemma {:induction false} MulAddRight(x: Byte, a: Byte, b: Byte)
    ensures Mul(x, Add(a, b)) == Add(Mul(x, a), Mul(x, b))
  {
    hide Xor, Clmul, Mul, Quotient;
    MulIsRemainder(x, a); MulIsRemainder(x, b);
    var q1, q2 := Quotient(x, a), Quotient(x, b);
    ClmulXorRight(x, a, b);
    XorSwap(Clmul(MODULUS, q1), Mul(x, a), Clmul(MODULUS, q2), Mul(x, b));
    ClmulXorRight(MODULUS, q1, q2);
    MulUnique(x, Add(a, b), Xor(q1, q2), Add(Mul(x, a), Mul(x, b)));
  }

  lemma {:induction false} MulAddLeft(a: Byte, b: Byte, x: Byte)
    ensures Mul(Add(a, b), x) == Add(Mul(a, x), Mul(b, x))
  {
    hide Mul, Add;
    MulCommutes(Add(a, b), x); MulCommutes(a, x); MulCommutes(b, x);
    MulAddRight(x, a, b);
  }

  lemma {:induction false} MulZero(x: Byte)
    ensures Mul(x, 0) == 0 == Mul(0, x)
  {
    MulCommutes(x, 0);
  }

  lemma {:induction false} MulOne(x: Byte)
    ensures Mul(x, 1) == x == Mul(1, x)
  {
    hide Xor;
    ClmulOne(x); ClmulZero(MODULUS); XorZero(x);
    MulUnique(x, 1, 0, x);
    MulUnique(1, x, 0, x);
  }

  lemma {:induction false} MulAssociates(x: Byte, y: Byte, z: Byte)
    ensures Mul(Mul(x, y), z) == Mul(x, Mul(y, z))
  {
    hide Xor, Clmul, Mul, Quotient;
    ProductResidue(x, y, z);
    var q1 := Xor(Clmul(Quotient(x, y), z), Quotient(Mul(x, y), z));
    MulCommutes(Mul(y, z), x);
    ProductResidue(y, z, x);
    var q2 := Xor(Clmul(Quotient(y, z), x), Quotient(Mul(y, z), x));
    ClmulAssociates(x, y, z);
    ClmulCommutes(Clmul(y, z), x);
    ResidueUnique(q1, Mul(Mul(x, y), z), q2, Mul(Mul(y, z), x));
  }

  /** The remainder of a triple product, reduced after the first multiplication. */
  lemma {:induction false} ProductResidue(x: Byte, y: Byte, z: Byte)
    ensures Clmul(Clmul(x, y), z)
         == Xor(Clmul(MODULUS, Xor(Clmul(Quotient(x, y), z), Quotient(Mul(x, y), z))), Mul(Mul(x, y), z))
  {
    hide Xor, Clmul, Mul, Quotient;
    var q, m := Quotient(x, y), Mul(x, y);
    var q' := Quotient(m, z);
    MulIsRemainder(x, y);
    ClmulXorLeft(Clmul(MODULUS, q), m, z);
    ClmulAssociates(MODULUS, q, z);
    MulIsRemainder(m, z);
    ClmulXorRight(MODULUS, Clmul(q, z), q');
    XorAssociates(Clmul(MODULUS, Clmul(q, z)), Clmul(MODULUS, q'), Mul(m, z));
  }

  lemma {:induction false} AddSwap(a: Byte, b: Byte, c: Byte, d: Byte)
    ensures Add(Add(a, b), Add(c, d)) == Add(Add(a, c), Add(b, d))
  {
    XorSwap(a, b, c, d);
  }

  /** Elements whose sum is zero are equal. */
  lemma {:induction false} AddCancels(a: Byte, b: Byte)
    ensures Add(Add(a, b), b) == a
    ensures Add(b, Add(b, a)) == a
    ensures Add(a, b) == 0 ==> a == b
  {
    hide Xor;
    XorCancels(a, b); XorZero(b);
  }
}
