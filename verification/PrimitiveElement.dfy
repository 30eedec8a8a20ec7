/**
 2 generates the multiplicative group of the field: its first 255 powers are different and
 are all the nonzero elements.  Hence the field has no zero divisors.
 */
module PrimitiveElement {
  import opened Bits
  import opened GaloisField
  import opened ReedSolomon

  // ---------- 2 generates the multiplicative group ----------

  lemma {:induction false} ExpAdds(a: nat, b: nat)
    ensures Exp(a + b) == Mul(Exp(a), Exp(b))
  {
    hide Mul;
    if b == 0 {
      MulOne(Exp(a));
    } else {
      ExpAdds(a, b - 1);
      MulAssociates(Exp(a), Exp(b - 1), 2);
    }
  }

  /** The number `n` with one more bit at its end. */
  function Snoc(n: nat, b: bool): nat {
    2 * n + (if b then 1 else 0)
  }

  /** A field element as its eight bits, so that products of constants can be computed. */
  datatype Octet = Octet(b7: bool, b6: bool, b5: bool, b4: bool, b3: bool, b2: bool, b1: bool, b0: bool) {

    function Value(): nat {
      Snoc(Snoc(Snoc(Snoc(Snoc(Snoc(Snoc(Snoc(0, b7), b6), b5), b4), b3), b2), b1), b0)
    }

    function Plus(o: Octet): Octet {
      Octet(b7 != o.b7, b6 != o.b6, b5 != o.b5, b4 != o.b4, b3 != o.b3, b2 != o.b2, b1 != o.b1, b0 != o.b0)
    }

    function Doubled(): Octet {
      Octet(b6, b5, b4, b3 != b7, b2 != b7, b1 != b7, b0, b7)
    }

    function Step(x: Octet, bit: bool): Octet {
      if bit then Doubled().Plus(x) else Doubled()
    }

    function Times(y: Octet): Octet {
      Octet(false, false, false, false, false, false, false, false)
        .Step(this, y.b7).Step(this, y.b6).Step(this, y.b5).Step(this, y.b4)
        .Step(this, y.b3).Step(this, y.b2).Step(this, y.b1).Step(this, y.b0)
    }
  }

  lemma {:induction false} SnocBound(n: nat, b: bool, m: nat)
    requires n <= m
    ensures Snoc(n, b) <= 2 * m + 1
  {
  }

  lemma {:induction false} ValueBound(a: Octet)
    ensures a.Value() < 256
  {
    hide Snoc;
    SnocBound(0, a.b7, 0);
    var n7 := Snoc(0, a.b7);
    SnocBound(n7, a.b6, 1);
    var n6 := Snoc(n7, a.b6);
    SnocBound(n6, a.b5, 3);
    var n5 := Snoc(n6, a.b5);
    SnocBound(n5, a.b4, 7);
    var n4 := Snoc(n5, a.b4);
    SnocBound(n4, a.b3, 15);
    var n3 := Snoc(n4, a.b3);
    SnocBound(n3, a.b2, 31);
    var n2 := Snoc(n3, a.b2);
    SnocBound(n2, a.b1, 63);
    SnocBound(Snoc(n2, a.b1), a.b0, 127);
  }

  lemma {:induction false} XorSnoc(a: nat, i: bool, b: nat, j: bool)
    ensures Xor(Snoc(a, i), Snoc(b, j)) == Snoc(Xor(a, b), i != j)
  {
    hide Xor;
    var m, n := Snoc(a, i), Snoc(b, j);
    assert m / 2 == a && n / 2 == b;
    XorHalf(m, n);
  }

  lemma {:induction false} PlusIsXor(a: Octet, b: Octet)
    ensures Xor(a.Value(), b.Value()) == a.Plus(b).Value()
  {
    hide Xor, Snoc;
    XorZero(0);
    XorSnoc(0, a.b7, 0, b.b7);
    var a7, b7 := Snoc(0, a.b7), Snoc(0, b.b7);
    XorSnoc(a7, a.b6, b7, b.b6);
    var a6, b6 := Snoc(a7, a.b6), Snoc(b7, b.b6);
    XorSnoc(a6, a.b5, b6, b.b5);
    var a5, b5 := Snoc(a6, a.b5), Snoc(b6, b.b5);
    XorSnoc(a5, a.b4, b5, b.b4);
    var a4, b4 := Snoc(a5, a.b4), Snoc(b5, b.b4);
    XorSnoc(a4, a.b3, b4, b.b3);
    var a3, b3 := Snoc(a4, a.b3), Snoc(b4, b.b3);
    XorSnoc(a3, a.b2, b3, b.b2);
    var a2, b2 := Snoc(a3, a.b2), Snoc(b3, b.b2);
    XorSnoc(a2, a.b1, b2, b.b1);
    XorSnoc(Snoc(a2, a.b1), a.b0, Snoc(b2, b.b1), b.b0);
  }

  /** The seven low bits, followed by a zero. */
  function Shifted(a: Octet): Octet {
    Octet(a.b6, a.b5, a.b4, a.b3, a.b2, a.b1, a.b0, false)
  }

  lemma SnocCarry(n: nat, m: nat, b: bool, w: nat)
    requires n == m + w
    ensures Snoc(n, b) == Snoc(m, b) + 2 * w
  {
  }

  lemma SnocZero(b: bool, m: nat)
    ensures Snoc(0, b) == (if b then 1 else 0) && Snoc(m, false) == 2 * m
  {
  }

  lemma {:induction false} ShiftedValue(a: Octet)
    ensures 2 * a.Value() == Shifted(a).Value() + (if a.b7 then 256 else 0)
  {
    hide Snoc;
    var c := if a.b7 then 1 else 0;
    var n7 := Snoc(0, a.b7);
    SnocZero(a.b7, 0);
    SnocCarry(n7, 0, a.b6, c);
    var n6, m6 := Snoc(n7, a.b6), Snoc(0, a.b6);
    SnocCarry(n6, m6, a.b5, 2 * c);
    var n5, m5 := Snoc(n6, a.b5), Snoc(m6, a.b5);
    SnocCarry(n5, m5, a.b4, 4 * c);
    var n4, m4 := Snoc(n5, a.b4), Snoc(m5, a.b4);
    SnocCarry(n4, m4, a.b3, 8 * c);
    var n3, m3 := Snoc(n4, a.b3), Snoc(m4, a.b3);
    SnocCarry(n3, m3, a.b2, 16 * c);
    var n2, m2 := Snoc(n3, a.b2), Snoc(m3, a.b2);
    SnocCarry(n2, m2, a.b1, 32 * c);
    var n1, m1 := Snoc(n2, a.b1), Snoc(m2, a.b1);
    SnocCarry(n1, m1, a.b0, 64 * c);
    SnocZero(false, Snoc(m1, a.b0));
  }

  lemma {:induction false} ConstantValues()
    ensures Octet(false, false, false, false, false, false, false, false).Value() == 0
    ensures Octet(false, false, false, true, true, true, false, true).Value() == 0x1D
  {
  }

  lemma {:induction false} DoubledIsTwice(a: Octet)
    requires a.Value() < 256
    ensures a.Doubled().Value() == Twice(a.Value())
  {
    hide Xor, Octet.Value, Twice;
    var red := Octet(false, false, false, true, true, true, false, true);
    ConstantValues();
    ShiftedValue(a);
    ValueBound(Shifted(a));
    TwiceReduces(a.Value());
    var low := Shifted(a);
    if a.b7 {
      assert a.Doubled() == low.Plus(red);
      PlusIsXor(low, red);
    } else {
      assert a.Doubled() == low;
    }
  }

  lemma {:induction false} TwiceReduces(z: Byte)
    ensures Twice(z) == if z < 128 then 2 * z else Xor(2 * z - 256, 0x1D)
  {
    hide Xor;
    XorZero(2 * z);
    if z >= 128 {
      ReducedXor(2 * z - 256);
    }
  }

  lemma {:induction false} ReducedXor(low: Byte)
    ensures Xor(256 + low, 0x11D) == Xor(low, 0x1D)
  {
    hide Xor;
    assert Pow2(8) == 256;
    ShlIsProduct(1, 8); ShlIsProduct(0, 8);
    XorSplit(1, low, 1, 0x1D, 8);
    XorSelf(1);
  }

  lemma {:induction false} StepIsMul(x: Octet, z: Octet, bit: bool, y: nat)
    requires x.Value() < 256 && Snoc(y, bit) < 256 && z.Value() == Mul(x.Value(), y)
    ensures z.Step(x, bit).Value() == Mul(x.Value(), Snoc(y, bit))
  {
    hide Mul, Xor, Octet.Value;
    MulStep(x.Value(), Snoc(y, bit));
    DoubledIsTwice(z);
    PlusIsXor(z.Doubled(), x);
    XorZero(z.Doubled().Value());
  }

  lemma {:induction false} TimesIsMul(x: Octet, y: Octet)
    ensures x.Value() < 256 && y.Value() < 256
    ensures x.Times(y).Value() == Mul(x.Value(), y.Value())
  {
    hide Mul, Snoc, Octet.Step;
    var z0 := Octet(false, false, false, false, false, false, false, false);
    ConstantValues();
    ValueBound(x); ValueBound(y);
    PrefixBounds(y);
    MulZero(x.Value());
    StepIsMul(x, z0, y.b7, 0);
    var z7, n7 := z0.Step(x, y.b7), Snoc(0, y.b7);
    StepIsMul(x, z7, y.b6, n7);
    var z6, n6 := z7.Step(x, y.b6), Snoc(n7, y.b6);
    StepIsMul(x, z6, y.b5, n6);
    var z5, n5 := z6.Step(x, y.b5), Snoc(n6, y.b5);
    StepIsMul(x, z5, y.b4, n5);
    var z4, n4 := z5.Step(x, y.b4), Snoc(n5, y.b4);
    StepIsMul(x, z4, y.b3, n4);
    var z3, n3 := z4.Step(x, y.b3), Snoc(n4, y.b3);
    StepIsMul(x, z3, y.b2, n3);
    var z2, n2 := z3.Step(x, y.b2), Snoc(n3, y.b2);
    StepIsMul(x, z2, y.b1, n2);
    StepIsMul(x, z2.Step(x, y.b1), y.b0, Snoc(n2, y.b1));
  }

  /** Every prefix of eight bits is a number below 256. */
  lemma {:induction false} PrefixBounds(y: Octet)
    ensures var n7 := Snoc(0, y.b7);
            var n6 := Snoc(n7, y.b6);
            var n5 := Snoc(n6, y.b5);
            var n4 := Snoc(n5, y.b4);
            var n3 := Snoc(n4, y.b3);
            var n2 := Snoc(n3, y.b2);
            n7 < 256 && n6 < 256 && n5 < 256 && n4 < 256 && n3 < 256 && n2 < 256 && Snoc(n2, y.b1) < 256
  {
    ValueBound(y);
  }

  lemma {:induction false} SmallProducts()
    ensures Mul(2, 2) == 4 && Mul(4, 4) == 16 && Mul(16, 16) == 29
    ensures Mul(2, 4) == 8 && Mul(8, 16) == 128
  {
    hide Mul;
    var e1 := Octet(false, false, false, false, false, false, true, false);
    var e2 := Octet(false, false, false, false, false, true, false, false);
    var e3 := Octet(false, false, false, false, true, false, false, false);
    var e4 := Octet(false, false, false, true, false, false, false, false);
    TimesIsMul(e1, e1); TimesIsMul(e2, e2); TimesIsMul(e4, e4); TimesIsMul(e1, e2); TimesIsMul(e3, e4);
  }

  lemma {:induction false} MediumProducts()
    ensures Mul(29, 29) == 76 && Mul(128, 29) == 38 && Mul(2, 76) == 152
  {
    hide Mul;
    var e1 := Octet(false, false, false, false, false, false, true, false);
    var e7 := Octet(true, false, false, false, false, false, false, false);
    var e8 := Octet(false, false, false, true, true, true, false, true);
    var e16 := Octet(false, true, false, false, true, true, false, false);
    TimesIsMul(e8, e8); TimesIsMul(e7, e8); TimesIsMul(e1, e16);
  }

  lemma {:induction false} LargeProducts()
    ensures Mul(152, 152) == 78 && Mul(78, 152) == 10
  {
    hide Mul;
    var e17 := Octet(true, false, false, true, true, false, false, false);
    var e34 := Octet(false, true, false, false, true, true, true, false);
    TimesIsMul(e17, e17); TimesIsMul(e34, e17);
  }

  lemma {:induction false} LargerProducts()
    ensures Mul(78, 10) == 214 && Mul(214, 214) == 215
  {
    hide Mul;
    var e34 := Octet(false, true, false, false, true, true, true, false);
    var e51 := Octet(false, false, false, false, true, false, true, false);
    var e85 := Octet(true, true, false, true, false, true, true, false);
    TimesIsMul(e34, e51); TimesIsMul(e85, e85);
  }

  lemma {:induction false} LastProduct()
    ensures Mul(215, 214) == 1
  {
    hide Mul;
    var e85 := Octet(true, true, false, true, false, true, true, false);
    var e170 := Octet(true, true, false, true, false, true, true, true);
    TimesIsMul(e170, e85);
  }

  /** The powers of 2 at which its order could drop. */
  lemma {:induction false} ExpValues()
    ensures Exp(15) == 38 && Exp(51) == 10 && Exp(85) == 214 && Exp(255) == 1
  {
    ExpOne();
    hide Exp, Mul;
    SmallProducts();
    MediumProducts();
    LargeProducts();
    LargerProducts();
    LastProduct();
    ExpAdds(1, 1); ExpAdds(2, 2); ExpAdds(4, 4); ExpAdds(8, 8);
    ExpAdds(1, 2); ExpAdds(3, 4); ExpAdds(7, 8);
    ExpAdds(1, 16); ExpAdds(17, 17); ExpAdds(34, 17);
    ExpAdds(34, 51); ExpAdds(85, 85); ExpAdds(170, 85);
  }

  lemma {:induction false} ExpOne()
    ensures Exp(1) == 2
  {
    MulOne(2);
    assert Exp(0) == 1;
  }

  lemma {:induction false} ExpMultiple(g: nat, m: nat, k: nat)
    requires Exp(g) == 1 && k == g * m
    ensures Exp(k) == 1
    decreases m
  {
    hide Mul;
    if m != 0 {
      assert k - g == g * (m - 1);
      ExpMultiple(g, m - 1, k - g);
      ExpAdds(k - g, g);
      MulOne(1);
    }
  }

  /** A common divisor of `a` and `b` at which 2 has already come back to 1. */
  lemma {:induction false} CommonPeriod(a: nat, b: nat) returns (g: nat, m: nat, n: nat)
    requires a > 0 && b > 0 && Exp(a) == 1 && Exp(b) == 1
    ensures g > 0 && a == g * m && b == g * n && Exp(g) == 1
    decreases a + b
  {
    hide Mul;
    if a == b {
      g, m, n := a, 1, 1;
    } else if a < b {
      ExpAdds(a, b - a);
      MulOne(Exp(b - a));
      g, m, n := CommonPeriod(a, b - a);
      assert g * (m + n) == g * m + g * n;
      n := m + n;
    } else {
      ExpAdds(b, a - b);
      MulOne(Exp(a - b));
      g, m, n := CommonPeriod(a - b, b);
      assert g * (m + n) == g * m + g * n;
      m := m + n;
    }
  }

  lemma {:induction false} DivisorsOf255(g: nat, n: nat)
    requires g * n == 255 && n >= 2
    ensures n % 3 == 0 || n % 5 == 0 || n % 17 == 0
  {
    assert n < 16 || g < 16 by {
      if n >= 16 {
        assert g <= 15 || g * n >= 16 * n;
      }
    }
    if n < 16 {
      assert n == 2 || n == 3 || n == 4 || n == 5 || n == 6 || n == 7 || n == 8 || n == 9
          || n == 10 || n == 11 || n == 12 || n == 13 || n == 14 || n == 15;
    } else {
      assert g == 0 || g == 1 || g == 2 || g == 3 || g == 4 || g == 5 || g == 6 || g == 7 || g == 8
          || g == 9 || g == 10 || g == 11 || g == 12 || g == 13 || g == 14 || g == 15;
    }
  }

  lemma {:induction false} MultipleTooLarge(k: nat, m: nat)
    requires 0 < k < 255
    ensures k != 255 * m
  {
  }

  lemma {:induction false} DividedPeriod(g: nat, n: nat, p: nat, k: nat)
    requires p > 0 && g * n == k * p && n % p == 0 && Exp(g) == 1
    ensures Exp(k) == 1
  {
    hide Mul, Exp;
    var q := n / p;
    assert g * q * p == k * p by {
      assert n == q * p;
      assert g * (q * p) == g * q * p;
    }
    assert g * q == k;
    ExpMultiple(g, q, k);
  }

  /** The order of 2 is exactly 255. */
  lemma {:induction false} OrderOfTwo(k: nat)
    requires 0 < k < 255
    ensures Exp(k) != 1
  {
    hide Mul, Exp;
    ExpValues();
    if Exp(k) == 1 {
      var g, m, n := CommonPeriod(k, 255);
      assert n >= 2 by {
        if n == 1 {
          MultipleTooLarge(k, m);
        }
      }
      DivisorsOf255(g, n);
      if n % 3 == 0 {
        DividedPeriod(g, n, 3, 85);
      } else if n % 5 == 0 {
        DividedPeriod(g, n, 5, 51);
      } else {
        DividedPeriod(g, n, 17, 15);
      }
    }
  }

  lemma {:induction false} ExpInverse(k: nat)
    requires k <= 255
    ensures Mul(Exp(k), Exp(255 - k)) == 1
  {
    hide Mul, Exp;
    ExpAdds(k, 255 - k);
    ExpValues();
  }

  lemma {:induction false} ExpInjective(i: nat, j: nat)
    requires i < j < 255
    ensures Exp(i) != Exp(j)
  {
    hide Mul, Exp;
    ExpAdds(i, j - i);
    ExpInverse(i);
    OrderOfTwo(j - i);
    var x, y, z := Exp(255 - i), Exp(i), Exp(j - i);
    MulCommutes(y, x);
    MulAssociates(x, y, z);
    MulOne(z);
  }

  lemma {:induction false} ExpNonzero(k: nat)
    requires k <= 255
    ensures Exp(k) != 0
  {
    hide Mul, Exp;
    ExpInverse(k);
    MulZero(Exp(255 - k));
  }

  // ---------- every nonzero element is a power of 2 ----------

  ghost function Powers(n: nat): set<Byte> {
    set k | 0 <= k < n :: Exp(k)
  }

  lemma {:induction false} PowersCount(n: nat)
    requires n <= 255
    ensures |Powers(n)| == n
  {
    hide Exp;
    if n != 0 {
      PowersCount(n - 1);
      assert Exp(n - 1) !in Powers(n - 1) by {
        forall k | 0 <= k < n - 1 ensures Exp(k) != Exp(n - 1) {
          ExpInjective(k, n - 1);
        }
      }
      assert Powers(n) == Powers(n - 1) + {Exp(n - 1)};
    }
  }

  lemma {:induction false} BoundedSet(s: set<Byte>, n: nat)
    requires n <= 255 && forall x :: x in s ==> 1 <= x <= n
    ensures |s| <= n
  {
    if n == 0 {
      assert forall x :: x !in s;
    } else {
      BoundedSet(s - {n}, n - 1);
      assert |s| <= |s - {n}| + 1;
    }
  }

  lemma {:induction false} LogExists(x: Byte) returns (k: nat)
    requires x != 0
    ensures k < 255 && Exp(k) == x
  {
    hide Exp;
    if x !in Powers(255) {
      PowersCount(255);
      var s := Powers(255) + {x};
      forall y | y in s ensures 1 <= y <= 255 {
        if y in Powers(255) {
          var j :| 0 <= j < 255 && Exp(j) == y;
          ExpNonzero(j);
        }
      }
      BoundedSet(s, 255);
      assert false;
    }
    k :| 0 <= k < 255 && Exp(k) == x;
  }

  /** The field has no zero divisors. */
  lemma {:induction false} NoZeroDivisors(a: Byte, b: Byte)
    requires Mul(a, b) == 0
    ensures a == 0 || b == 0
  {
    hide Mul, Exp;
    if b != 0 {
      var k := LogExists(b);
      ExpInverse(k);
      MulAssociates(a, b, Exp(255 - k));
      MulOne(a);
      MulZero(Exp(255 - k));
    }
  }
}
