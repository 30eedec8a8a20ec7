/**
 What the error correction codewords are for: two different codewords of at most 255 bytes
 differ in more than `degree` places, so `degree / 2` damaged bytes never hide which block
 was written.
 */
module ErrorCorrection {
  import opened Bits
  import opened GaloisField
  import opened Polynomials
  import opened ReedSolomon
  import opened PrimitiveElement
  import opened Interleaving

  // ---------- power sums ----------

  function Pow(a: Byte, k: nat): Byte {
    if k == 0 then 1 else Mul(Pow(a, k - 1), a)
  }

  /** The sum of c[i] * a[i]^k. */
  function PowerSum(c: Poly, a: Poly, k: nat): Byte
    requires |c| == |a|
  {
    if c == [] then 0
    else
      var n := |c| - 1;
      Add(PowerSum(c[..n], a[..n], k), Mul(c[n], Pow(a[n], k)))
  }

  /** The number of nonzero coefficients. */
  function Weight(c: Poly): nat {
    if c == [] then 0 else Weight(c[..|c| - 1]) + (if c[|c| - 1] != 0 then 1 else 0)
  }

  /** Every coefficient times (its locator - p): eliminates the terms located at p. */
  function Eliminate(c: Poly, a: Poly, p: Byte): (r: Poly)
    requires |c| == |a|
    ensures |r| == |c|
  {
    seq(|c|, i requires 0 <= i < |c| => Mul(c[i], Add(a[i], p)))
  }

  lemma {:induction false} EliminateSum(c: Poly, a: Poly, p: Byte, k: nat)
    requires |c| == |a|
    ensures PowerSum(Eliminate(c, a, p), a, k) == Add(PowerSum(c, a, k + 1), Mul(p, PowerSum(c, a, k)))
  {
    hide Add, Mul;
    if c == [] {
      MulZero(p); AddLaws(0, 0, 0);
    } else {
      var n := |c| - 1;
      var c', a' := c[..n], a[..n];
      EliminateSum(c', a', p, k);
      assert Eliminate(c, a, p)[..n] == Eliminate(c', a', p);
      EliminateTerm(c[n], a[n], p, Pow(a[n], k));
      var s, t := PowerSum(c', a', k + 1), PowerSum(c', a', k);
      var u, v := Mul(c[n], Pow(a[n], k + 1)), Mul(c[n], Pow(a[n], k));
      AddSwap(s, Mul(p, t), u, Mul(p, v));
      MulAddRight(p, t, v);
    }
  }

  lemma {:induction false} EliminateTerm(c: Byte, a: Byte, p: Byte, w: Byte)
    ensures Mul(Mul(c, Add(a, p)), w) == Add(Mul(c, Mul(w, a)), Mul(p, Mul(c, w)))
  {
    hide Add, Mul;
    MulAddRight(c, a, p);
    MulAddLeft(Mul(c, a), Mul(c, p), w);
    MulAssociates(c, a, w); MulCommutes(a, w);
    MulCommutes(c, p); MulAssociates(p, c, w);
  }

  lemma {:induction false} WeightZero(c: Poly)
    ensures Weight(c) == 0 <==> forall i :: 0 <= i < |c| ==> c[i] == 0
  {
    if c != [] {
      var n := |c| - 1;
      WeightZero(c[..n]);
      assert forall i :: 0 <= i < n ==> c[..n][i] == c[i];
    }
  }

  /** Zeroing one nonzero coefficient and keeping the others nonzero lowers the weight by one. */
  lemma {:induction false} WeightDrops(c: Poly, c': Poly, j: nat)
    requires |c| == |c'| && j < |c|
    requires c[j] != 0 && c'[j] == 0
    requires forall i :: 0 <= i < |c| && i != j ==> (c'[i] == 0 <==> c[i] == 0)
    ensures Weight(c') == Weight(c) - 1
  {
    var n := |c| - 1;
    if j == n {
      WeightSame(c[..n], c'[..n]);
    } else {
      WeightDrops(c[..n], c'[..n], j);
    }
  }

  lemma {:induction false} WeightSame(c: Poly, c': Poly)
    requires |c| == |c'|
    requires forall i :: 0 <= i < |c| ==> (c'[i] == 0 <==> c[i] == 0)
    ensures Weight(c') == Weight(c)
  {
    if c != [] {
      WeightSame(c[..|c| - 1], c'[..|c| - 1]);
    }
  }

  ghost predicate Distinct(a: Poly) {
    forall i, j :: 0 <= i < j < |a| ==> a[i] != a[j]
  }

  /** With distinct locators, at most `m` nonzero coefficients cannot make `m` power sums vanish. */
  lemma {:induction false} FewTermsVanish(c: Poly, a: Poly, m: nat)
    requires |c| == |a| && Distinct(a)
    requires Weight(c) <= m
    requires forall k :: 0 <= k < m ==> PowerSum(c, a, k) == 0
    ensures Weight(c) == 0
    decreases m
  {
    hide Add, Mul, PowerSum, Weight;
    WeightZero(c);
    if Weight(c) != 0 {
      var j :| 0 <= j < |c| && c[j] != 0;
      var c' := Eliminate(c, a, a[j]);
      EliminateKeeps(c, a, j);
      WeightDrops(c, c', j);
      forall k | 0 <= k < m - 1 ensures PowerSum(c', a, k) == 0 {
        EliminateSum(c, a, a[j], k);
        MulZero(a[j]); AddLaws(0, 0, 0);
      }
      FewTermsVanish(c', a, m - 1);
      SingleTerm(c, a, j);
      assert false;
    }
  }

  lemma {:induction false} EliminateKeeps(c: Poly, a: Poly, j: nat)
    requires |c| == |a| && Distinct(a) && j < |c|
    ensures Eliminate(c, a, a[j])[j] == 0
    ensures forall i :: 0 <= i < |c| && i != j ==> (Eliminate(c, a, a[j])[i] == 0 <==> c[i] == 0)
  {
    hide Add, Mul;
    AddLaws(a[j], 0, 0);
    MulZero(c[j]);
    forall i | 0 <= i < |c| && i != j ensures Eliminate(c, a, a[j])[i] == 0 <==> c[i] == 0 {
      AddCancels(a[i], a[j]);
      MulZero(Add(a[i], a[j]));
      if Mul(c[i], Add(a[i], a[j])) == 0 {
        NoZeroDivisors(c[i], Add(a[i], a[j]));
      }
    }
  }

  /** A weight-one sequence has a nonzero zeroth power sum. */
  lemma {:induction false} SingleTerm(c: Poly, a: Poly, j: nat)
    requires |c| == |a| && j < |c|
    requires c[j] != 0
    requires Weight(c) == 1
    ensures PowerSum(c, a, 0) != 0
  {
    hide Add, Mul;
    var n := |c| - 1;
    MulOne(c[n]);
    WeightZero(c[..n]);
    if j == n {
      AllZeroSum(c[..n], a[..n]);
      AddLaws(c[n], 0, 0);
      AddLaws(0, c[n], 0);
    } else {
      assert c[..n][j] != 0;
      SingleTerm(c[..n], a[..n], j);
      AddLaws(PowerSum(c[..n], a[..n], 0), 0, 0);
    }
  }

  lemma {:induction false} AllZeroSum(c: Poly, a: Poly)
    requires |c| == |a| && forall i :: 0 <= i < |c| ==> c[i] == 0
    ensures PowerSum(c, a, 0) == 0
  {
    hide Add, Mul;
    if c != [] {
      AllZeroSum(c[..|c| - 1], a[..|a| - 1]);
      MulZero(Pow(a[|a| - 1], 0));
      AddLaws(0, 0, 0);
    }
  }

  // ---------- distance between codewords ----------

  /** The locator of coefficient `i` of a block of `n` bytes is 2^(n-1-i). */
  function Locators(n: nat): (a: Poly)
    ensures |a| == n
  {
    seq(n, i requires 0 <= i < n => Exp(n - 1 - i))
  }

  /** Evaluating at 2^k is taking the k-th power sum. */
  lemma {:induction false} EvalIsPowerSum(p: Poly, k: nat)
    ensures Eval(p, Exp(k)) == PowerSum(p, Locators(|p|), k)
  {
    hide Add, Mul;
    if p != [] {
      var n := |p| - 1;
      var p', a := p[..n], Locators(n + 1);
      EvalIsPowerSum(p', k);
      forall i | 0 <= i < n ensures a[..n][i] == Mul(Locators(n)[i], 2) {
        assert a[i] == Exp(n - i) == Mul(Exp(n - i - 1), 2);
      }
      ScaledSum(p', Locators(n), a[..n], k);
      PowOfOne(k);
      MulOne(p[n]);
      assert a[n] == Exp(0) == 1;
    }
  }

  lemma {:induction false} PowOfOne(k: nat)
    ensures Pow(1, k) == 1
  {
    hide Mul;
    if k != 0 {
      PowOfOne(k - 1);
      MulOne(1);
    }
  }

  /** Doubling every locator multiplies the k-th power sum by 2^k. */
  lemma {:induction false} ScaledSum(c: Poly, a: Poly, b: Poly, k: nat)
    requires |c| == |a| == |b|
    requires forall i :: 0 <= i < |a| ==> b[i] == Mul(a[i], 2)
    ensures PowerSum(c, b, k) == Mul(PowerSum(c, a, k), Exp(k))
  {
    hide Add, Mul;
    MulZero(Exp(k));
    if c != [] {
      var n := |c| - 1;
      ScaledSum(c[..n], a[..n], b[..n], k);
      PowOfDouble(a[n], k);
      MulAssociates(c[n], Pow(a[n], k), Exp(k));
      MulAddLeft(PowerSum(c[..n], a[..n], k), Mul(c[n], Pow(a[n], k)), Exp(k));
    }
  }

  lemma {:induction false} PowOfDouble(a: Byte, k: nat)
    ensures Pow(Mul(a, 2), k) == Mul(Pow(a, k), Exp(k))
  {
    hide Mul;
    if k == 0 {
      MulOne(1);
    } else {
      PowOfDouble(a, k - 1);
      var p, e := Pow(a, k - 1), Exp(k - 1);
      MulAssociates(p, e, Mul(a, 2));
      MulAssociates(e, a, 2); MulCommutes(e, a); MulAssociates(a, e, 2);
      MulAssociates(p, a, Mul(e, 2));
    }
  }

  /** The number of places where two blocks differ. */
  function Distance(c: Poly, d: Poly): nat
    requires |c| == |d|
  {
    if c == [] then 0
    else Distance(c[..|c| - 1], d[..|d| - 1]) + (if c[|c| - 1] != d[|d| - 1] then 1 else 0)
  }

  lemma {:induction false} DistanceIsWeight(c: Poly, d: Poly)
    requires |c| == |d|
    ensures Distance(c, d) == Weight(PAdd(c, d))
  {
    hide Add;
    if c != [] {
      var n := |c| - 1;
      DistanceIsWeight(c[..n], d[..n]);
      assert PAdd(c, d)[..n] == PAdd(c[..n], d[..n]);
      AddCancels(c[n], d[n]);
      AddLaws(c[n], 0, 0);
    }
  }

  /** Different codewords of one length, up to 255 bytes, differ in more than `degree` places. */
  lemma {:induction false} MinimumDistance(c: Poly, d: Poly, degree: nat)
    requires |c| == |d| <= 255 && c != d
    requires IsCodeword(c, degree) && IsCodeword(d, degree)
    ensures Distance(c, d) > degree
  {
    hide Add, Mul, Exp;
    var sum, a := PAdd(c, d), Locators(|c|);
    DistanceIsWeight(c, d);
    if Weight(sum) <= degree {
      forall i, j | 0 <= i < j < |a| ensures a[i] != a[j] {
        ExpInjective(|a| - 1 - j, |a| - 1 - i);
      }
      forall k | 0 <= k < degree ensures PowerSum(sum, a, k) == 0 {
        EvalIsPowerSum(sum, k);
        EvalAdd(c, d, Exp(k));
        AddLaws(0, 0, 0);
      }
      FewTermsVanish(sum, a, degree);
      WeightZero(sum);
      forall i | 0 <= i < |c| ensures c[i] == d[i] {
        assert sum[i] == Add(c[i], d[i]);
        AddCancels(c[i], d[i]);
      }
      assert false;
    }
  }

  lemma {:induction false} DistanceTriangle(c: Poly, d: Poly, w: Poly)
    requires |c| == |d| == |w|
    ensures Distance(c, d) <= Distance(w, c) + Distance(w, d)
  {
    if c != [] {
      var n := |c| - 1;
      DistanceTriangle(c[..n], d[..n], w[..n]);
    }
  }

  /** A damaged block with at most `degree / 2` wrong bytes has only one codeword that near. */
  lemma {:induction false} CorrectionIsUnique(data: Poly, other: Poly, received: Poly, degree: nat)
    requires |data| == |other| == |received| <= 255
    requires IsCodeword(data, degree) && IsCodeword(other, degree)
    requires 2 * Distance(received, data) <= degree && 2 * Distance(received, other) <= degree
    ensures data == other
  {
    if data != other {
      MinimumDistance(data, other, degree);
      DistanceTriangle(data, other, received);
    }
  }

  /** A block of a symbol with at most half as many wrong bytes as it has error correction bytes has
      only one reading, the block that was written. */
  lemma {:induction false} DamagedBlockReads(l: Layout, data: seq<Byte>, j: nat, received: Poly, reading: Poly)
    requires l.Valid() && l.PaddedLen() <= 255 && |data| == l.DataCodewords() && j < l.numBlocks
    requires var block := ReadBlock(l, WithEcc(l, data), j);
             && |received| == |reading| == |block|
             && 2 * Distance(received, block) <= l.eccLen
    requires IsCodeword(reading, l.eccLen) && 2 * Distance(received, reading) <= l.eccLen
    ensures reading == ReadBlock(l, WithEcc(l, data), j)
  {
    hide WithEcc, Distance, Remainder;
    ReadBlocksAreCodewords(l, data, j);
    CorrectionIsUnique(reading, ReadBlock(l, WithEcc(l, data), j), received, l.eccLen);
  }
}
