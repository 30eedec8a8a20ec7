/**
 Polynomials over GF(2^8), stored as the encoder stores them: coefficients from the
 highest power down.
 */
module Polynomials {
  import opened Bits
  import opened GaloisField

  type Poly = seq<Byte>

  function Zeros(n: nat): (p: Poly)
    ensures |p| == n
  {
    seq(n, _ => 0)
  }

  function PAdd(p: Poly, q: Poly): (r: Poly)
    requires |p| == |q|
    ensures |r| == |p|
  {
    seq(|p|, i requires 0 <= i < |p| => Add(p[i], q[i]))
  }

  function Scale(f: Byte, p: Poly): (r: Poly)
    ensures |r| == |p|
  {
    seq(|p|, i requires 0 <= i < |p| => Mul(p[i], f))
  }

  /** The product, by adding one scaled and shifted copy of `d` for each coefficient of `q`. */
  function PMul(q: Poly, d: Poly): (r: Poly)
    requires |d| >= 1
    ensures |r| == |q| + |d| - 1
  {
    if q == [] then Zeros(|d| - 1)
    else
      var n := |q| - 1;
      PAdd(PMul(q[..n], d) + [0], Zeros(n) + Scale(q[n], d))
  }

  /** The value of `p` at `x`. */
  function Eval(p: Poly, x: Byte): Byte {
    if p == [] then 0
    else Add(Mul(Eval(p[..|p| - 1], x), x), p[|p| - 1])
  }

  lemma {:induction false} EvalSnoc(p: Poly, c: Byte, x: Byte)
    ensures Eval(p + [c], x) == Add(Mul(Eval(p, x), x), c)
  {
    hide Add, Mul;
    assert (p + [c])[..|p|] == p;
  }

  lemma {:induction false} EvalAdd(p: Poly, q: Poly, x: Byte)
    requires |p| == |q|
    ensures Eval(PAdd(p, q), x) == Add(Eval(p, x), Eval(q, x))
  {
    hide Add, Mul;
    if p == [] {
      AddLaws(0, 0, 0);
    } else {
      var n := |p| - 1;
      var p', q' := p[..n], q[..n];
      EvalAdd(p', q', x);
      assert PAdd(p, q)[..n] == PAdd(p', q');
      MulAddLeft(Eval(p', x), Eval(q', x), x);
      AddSwap(Mul(Eval(p', x), x), Mul(Eval(q', x), x), p[n], q[n]);
    }
  }

  lemma {:induction false} EvalScale(f: Byte, p: Poly, x: Byte)
    ensures Eval(Scale(f, p), x) == Mul(Eval(p, x), f)
  {
    hide Add, Mul;
    if p == [] {
      MulZero(f);
    } else {
      var n := |p| - 1;
      EvalScale(f, p[..n], x);
      assert Scale(f, p)[..n] == Scale(f, p[..n]);
      var e := Eval(p[..n], x);
      MulAssociates(e, f, x); MulCommutes(f, x); MulAssociates(e, x, f);
      MulAddLeft(Mul(e, x), p[n], f);
    }
  }

  lemma {:induction false} EvalZeros(n: nat, x: Byte)
    ensures Eval(Zeros(n), x) == 0
  {
    hide Add, Mul;
    if n != 0 {
      EvalZeros(n - 1, x);
      assert Zeros(n)[..n - 1] == Zeros(n - 1);
      MulZero(x); AddLaws(0, 0, 0);
    }
  }

  /** Leading zeros do not change the value. */
  lemma {:induction false} EvalPadded(n: nat, p: Poly, x: Byte)
    ensures Eval(Zeros(n) + p, x) == Eval(p, x)
  {
    hide Add, Mul;
    if p == [] {
      EvalZeros(n, x);
      assert Zeros(n) + p == Zeros(n);
    } else {
      var m := |p| - 1;
      EvalPadded(n, p[..m], x);
      assert (Zeros(n) + p)[..n + m] == Zeros(n) + p[..m];
    }
  }

  /** Evaluation is multiplicative. */
  lemma {:induction false} EvalMul(q: Poly, d: Poly, x: Byte)
    requires |d| >= 1
    ensures Eval(PMul(q, d), x) == Mul(Eval(q, x), Eval(d, x))
  {
    hide Add, Mul;
    if q == [] {
      EvalZeros(|d| - 1, x);
      MulZero(Eval(d, x));
    } else {
      var n := |q| - 1;
      var q', f := q[..n], q[n];
      var e, ed := Eval(q', x), Eval(d, x);
      EvalMul(q', d, x);
      EvalAdd(PMul(q', d) + [0], Zeros(n) + Scale(f, d), x);
      EvalSnoc(PMul(q', d), 0, x);
      EvalPadded(n, Scale(f, d), x);
      EvalScale(f, d, x);
      AddLaws(Mul(Mul(e, ed), x), 0, 0);
      MulAssociates(e, ed, x); MulCommutes(ed, x); MulAssociates(e, x, ed);
      MulCommutes(ed, f);
      MulAddLeft(Mul(e, x), f, ed);
    }
  }

  /** The product with a monic linear factor, coefficient by coefficient. */
  lemma {:induction false} LinearFactor(q: Poly, c: Byte, k: nat)
    requires k <= |q|
    ensures PMul(q, [1, c])[k]
         == Add(if k < |q| then q[k] else 0, if k > 0 then Mul(c, q[k - 1]) else 0)
  {
    hide Add, Mul;
    AddLaws(0, 0, 0);
    if q != [] {
      var n := |q| - 1;
      var q', f := q[..n], q[n];
      var l, r := PMul(q', [1, c]) + [0], Zeros(n) + Scale(f, [1, c]);
      assert PMul(q, [1, c])[k] == Add(l[k], r[k]);
      if k <= n {
        LinearFactor(q', c, k);
        MulOne(f);
        AddLaws(l[k], 0, 0);
        if k == n {
          var t := if k > 0 then Mul(c, q[k - 1]) else 0;
          AddLaws(0, t, f); AddLaws(t, f, 0); AddLaws(f, t, 0);
        }
      } else {
        AddLaws(Mul(c, f), 0, 0);
      }
    }
  }
}
