/**
 Reed-Solomon error correction: the generator polynomial, the shift-register division, and
 what makes the result useful, namely that every block is a multiple of the generator.
 */
module ReedSolomon {
  import opened Results
  import opened Bits
  import opened GaloisField
  import opened Polynomials

  /** 2^k in the field. */
  function Exp(k: nat): Byte {
    if k == 0 then 1 else Mul(Exp(k - 1), 2)
  }

  // ---------- the generator polynomial ----------

  /** (x - 2^0)(x - 2^1)...(x - 2^(k-1)). */
  function Generator(k: nat): (p: Poly)
    ensures |p| == k + 1
  {
    if k == 0 then [1] else PMul(Generator(k - 1), [1, Exp(k - 1)])
  }

  lemma {:induction false} GeneratorIsMonic(k: nat)
    ensures Generator(k)[0] == 1
  {
    hide Add, Mul;
    if k != 0 {
      GeneratorIsMonic(k - 1);
      LinearFactor(Generator(k - 1), Exp(k - 1), 0);
      AddLaws(1, 0, 0);
    }
  }

  lemma {:induction false} GeneratorVanishes(degree: nat, k: nat)
    requires k < degree
    ensures Eval(Generator(degree), Exp(k)) == 0
  {
    hide Add, Mul;
    var x, c := Exp(k), Exp(degree - 1);
    EvalMul(Generator(degree - 1), [1, c], x);
    if k < degree - 1 {
      GeneratorVanishes(degree - 1, k);
      MulZero(Eval([1, c], x));
    } else {
      EvalSnoc([1], c, x);
      EvalSnoc([], 1, x);
      assert [] + [1] == [1] && [1] + [c] == [1, c];
      MulZero(x); AddLaws(1, 0, 0); MulOne(x); AddLaws(x, 0, 0);
      MulZero(Eval(Generator(degree - 1), x));
    }
  }

  /** What the in-place loop holds after `i` rounds: the low coefficients of `Generator(i)`. */
  ghost function Window(degree: nat, i: nat): (w: Poly)
    requires i <= degree
    ensures |w| == degree
  {
    (Zeros(degree) + Generator(i))[i + 1..]
  }

  lemma {:induction false} WindowAt(degree: nat, i: nat, j: nat)
    requires i <= degree && j < degree
    ensures Window(degree, i)[j] == var m := i + 1 + j - degree; if m >= 0 then Generator(i)[m] else 0
  {
    hide Generator;
  }

  lemma {:induction false} WindowStep(degree: nat, i: nat, j: nat)
    requires i < degree && j < degree
    ensures Window(degree, i + 1)[j]
         == Add(Mul(Window(degree, i)[j], Exp(i)), if j + 1 < degree then Window(degree, i)[j + 1] else 0)
  {
    hide Add, Mul, Window;
    WindowAt(degree, i + 1, j);
    WindowAt(degree, i, j);
    if j + 1 < degree {
      WindowAt(degree, i, j + 1);
    }
    var g, m := Generator(i), i + 2 + j - degree;
    var c := Exp(i);
    MulZero(c);
    AddLaws(0, 0, 0);
    if m >= 0 {
      LinearFactor(g, c, m);
      var a := if m < |g| then g[m] else 0;
      var b := if m > 0 then Mul(c, g[m - 1]) else 0;
      AddLaws(a, b, 0);
      if m > 0 {
        MulCommutes(c, g[m - 1]);
      }
    }
  }

  lemma {:induction false} WindowEnds(degree: nat)
    requires degree >= 1
    ensures Window(degree, 0) == Zeros(degree - 1) + [1]
    ensures [1] + Window(degree, degree) == Generator(degree)
  {
    hide Add, Mul;
    assert Zeros(degree)[1..] == Zeros(degree - 1);
    GeneratorIsMonic(degree);
  }

  /** Multiplies the product so far by (x - root). */
  method MultiplyByRoot(result: array<Byte>, i: nat, root: Byte)
    requires i < result.Length && root == Exp(i) && result[..] == Window(result.Length, i)
    modifies result
    ensures result[..] == Window(result.Length, i + 1)
  {
    hide Add, Mul, Window, Exp;
    var degree := result.Length;
    ghost var w := Window(degree, i);
    for j := 0 to degree
      invariant forall k :: 0 <= k < j ==> result[k] == Window(degree, i + 1)[k]
      invariant forall k :: j <= k < degree ==> result[k] == w[k]
    {
      WindowStep(degree, i, j);
      AddLaws(Mul(w[j], root), 0, 0);
      var t := Multiply(result[j], root);
      result[j] := t;
      if j + 1 < degree {
        result[j] := Add(result[j], result[j + 1]);
      }
    }
  }

  /** Computes the generator polynomial in place and drops its leading 1. */
  method ComputeDivisor(degree: int) returns (r: Result<Poly>)
    ensures r.Ok? <==> 1 <= degree <= 255
    ensures r.Ok? ==> [1] + r.value == Generator(degree)
    ensures r.Err? ==> r.error == DomainError
  {
    hide Add, Mul, Generator, Window;
    if degree < 1 || degree > 255 {
      return Err(DomainError);
    }
    var result := new Byte[degree](_ => 0);
    result[degree - 1] := 1;
    WindowEnds(degree);
    assert result[..] == Window(degree, 0);
    var root: Byte := 1;
    for i := 0 to degree
      invariant root == Exp(i)
      invariant result[..] == Window(degree, i)
    {
      MultiplyByRoot(result, i, root);
      var t := Multiply(root, 2);
      root := t;
    }
    return Ok(result[..]);
  }

  // ---------- division ----------

  /** The register shifted up by one place, plus `f` times the low coefficients of the divisor. */
  function Feed(r: Poly, d: Poly, f: Byte): (r': Poly)
    requires |r| == |d| >= 1
    ensures |r'| == |d|
  {
    seq(|d|, i requires 0 <= i < |d| => Add(if i + 1 < |r| then r[i + 1] else 0, Mul(d[i], f)))
  }

  /** One step of the shift register: multiply by x, bring in `b`, reduce by the monic divisor. */
  function RemainderStep(r: Poly, d: Poly, b: Byte): (r': Poly)
    requires |r| == |d| >= 1
    ensures |r'| == |d|
  {
    Feed(r, d, Add(b, r[0]))
  }

  /** The register after the whole of `data` has been shifted in. */
  function Remainder(data: Poly, d: Poly): (r: Poly)
    requires |d| >= 1
    ensures |r| == |d|
  {
    if data == [] then Zeros(|d|)
    else RemainderStep(Remainder(data[..|data| - 1], d), d, data[|data| - 1])
  }

  /** The quotient: the factors the register was reduced by, in order. */
  function Factors(data: Poly, d: Poly): (q: Poly)
    requires |d| >= 1
    ensures |q| == |data|
  {
    if data == [] then []
    else
      var n := |data| - 1;
      Factors(data[..n], d) + [Add(data[n], Remainder(data[..n], d)[0])]
  }

  lemma {:induction false} ProductUnfolds(q: Poly, f: Byte, g: Poly)
    requires |g| >= 1
    ensures PMul(q + [f], g) == PAdd(PMul(q, g) + [0], Zeros(|q|) + Scale(f, g))
  {
    assert (q + [f])[..|q|] == q;
  }

  /** One more quotient coefficient changes the product only from that coefficient's place on. */
  lemma {:induction false} ProductSnoc(front: Poly, r: Poly, q: Poly, f: Byte, d: Poly)
    requires |r| == |d| >= 1 && |front| == |q|
    requires PMul(q, [1] + d) == front + r
    ensures PMul(q + [f], [1] + d) == front + [Add(r[0], f)] + Feed(r, d, f)
  {
    hide Add, Mul, PMul;
    var n := |q|;
    var p, shifted := front + r + [0], Zeros(n) + Scale(f, [1] + d);
    var product := PMul(q + [f], [1] + d);
    ProductUnfolds(q, f, [1] + d);
    MulOne(f);
    forall k | 0 <= k < |product|
      ensures product[k] == (front + [Add(r[0], f)] + Feed(r, d, f))[k]
    {
      assert product[k] == Add(p[k], shifted[k]);
      if k < n {
        AddLaws(p[k], 0, 0);
      } else if k > n {
        assert p[k] == if k - n < |r| then r[k - n] else 0;
        assert shifted[k] == Mul(d[k - n - 1], f);
      }
    }
  }

  /** data(x) * x^n + remainder(x) == quotient(x) * divisor(x). */
  lemma {:induction false} DivisionTheorem(data: Poly, d: Poly)
    requires |d| >= 1
    ensures data + Remainder(data, d) == PMul(Factors(data, d), [1] + d)
  {
    hide Add, Mul;
    if data == [] {
      assert Factors(data, d) == [];
    } else {
      hide PMul;
      var n := |data| - 1;
      var front, b := data[..n], data[n];
      DivisionTheorem(front, d);
      var r := Remainder(front, d);
      var f := Add(b, r[0]);
      ProductSnoc(front, r, Factors(front, d), f, d);
      AddLaws(r[0], f, 0);
      AddCancels(b, r[0]);
      assert data == front + [b];
    }
  }

  lemma {:induction false} DivisionSnoc(data: Poly, d: Poly)
    requires |d| >= 1 && data != []
    ensures var n := |data| - 1;
            var f := Add(data[n], Remainder(data[..n], d)[0]);
            && Factors(data, d) == Factors(data[..n], d) + [f]
            && Remainder(data, d) == Feed(Remainder(data[..n], d), d, f)
  {
    hide Add, Mul, Feed;
  }

  /** Quotient and remainder are the only ones of their lengths. */
  lemma {:induction false} RemainderUnique(data: Poly, d: Poly, q: Poly, r: Poly)
    requires |d| >= 1 && |q| == |data| && |r| == |d|
    requires data + r == PMul(q, [1] + d)
    ensures q == Factors(data, d) && r == Remainder(data, d)
  {
    hide Add, Mul;
    if data == [] {
      assert data + r == r;
    } else {
      hide PMul, Feed, Factors, Remainder;
      var n := |data| - 1;
      var front, b, q', f := data[..n], data[n], q[..n], q[n];
      var p := PMul(q', [1] + d);
      var front', r' := p[..n], p[n..];
      assert q == q' + [f] && p == front' + r';
      ProductSnoc(front', r', q', f, d);
      SplitEqual(data + r, front, b, r, front', Add(r'[0], f), Feed(r', d, f));
      RemainderUnique(front, d, q', r');
      AddCancels(f, r'[0]);
      AddLaws(r'[0], f, 0);
      AddLaws(b, r'[0], 0);
      assert f == Add(b, r'[0]);
      DivisionSnoc(data, d);
    }
  }

  lemma {:induction false} SplitEqual(whole: Poly, a: Poly, b: Byte, c: Poly, a': Poly, b': Byte, c': Poly)
    requires |a| == |a'|
    requires whole == a + [b] + c == a' + [b'] + c'
    ensures a == a' && b == b' && c == c'
  {
    var n := |a|;
    assert a == whole[..n] == a';
    assert b == whole[n] == b';
    assert c == whole[n + 1..] == c';
  }

  /** The remainder of a sum is the sum of the remainders. */
  lemma {:induction false} RemainderIsLinear(a: Poly, b: Poly, d: Poly)
    requires |d| >= 1 && |a| == |b|
    ensures Remainder(PAdd(a, b), d) == PAdd(Remainder(a, d), Remainder(b, d))
  {
    hide Add, Mul;
    if a == [] {
      AddLaws(0, 0, 0);
    } else {
      var n := |a| - 1;
      RemainderIsLinear(a[..n], b[..n], d);
      assert PAdd(a, b)[..n] == PAdd(a[..n], b[..n]);
      StepIsLinear(Remainder(a[..n], d), Remainder(b[..n], d), d, a[n], b[n]);
    }
  }

  lemma {:induction false} StepIsLinear(r: Poly, s: Poly, d: Poly, b: Byte, c: Byte)
    requires |r| == |s| == |d| >= 1
    ensures RemainderStep(PAdd(r, s), d, Add(b, c)) == PAdd(RemainderStep(r, d, b), RemainderStep(s, d, c))
  {
    hide Add, Mul;
    var f, g := Add(b, r[0]), Add(c, s[0]);
    AddSwap(b, c, r[0], s[0]);
    AddLaws(0, 0, 0);
    var sum, parts := RemainderStep(PAdd(r, s), d, Add(b, c)), PAdd(RemainderStep(r, d, b), RemainderStep(s, d, c));
    forall i | 0 <= i < |d| ensures sum[i] == parts[i] {
      MulAddRight(d[i], f, g);
      var u: Byte, v: Byte := if i + 1 < |d| then r[i + 1] else 0, if i + 1 < |d| then s[i + 1] else 0;
      AddSwap(u, v, Mul(d[i], f), Mul(d[i], g));
    }
  }

  /** The shift-register loop. */
  method ComputeRemainder(data: Poly, divisor: Poly) returns (result: Poly)
    requires |divisor| >= 1
    ensures result == Remainder(data, divisor)
  {
    hide Add, Mul;
    result := Zeros(|divisor|);
    assert data[..0] == [];
    for n := 0 to |data|
      invariant result == Remainder(data[..n], divisor)
    {
      assert data[..n + 1][..n] == data[..n];
      ghost var r := result;
      var factor := Add(data[n], result[0]);
      result := result[1..];
      result := result + [0];
      for i := 0 to |result|
        invariant |result| == |divisor|
        invariant forall k :: 0 <= k < i ==> result[k] == RemainderStep(r, divisor, data[n])[k]
        invariant forall k :: i <= k < |result| ==> result[k] == if k + 1 < |r| then r[k + 1] else 0
      {
        var t := Multiply(divisor[i], factor);
        result := result[i := Add(result[i], t)];
      }
    }
    assert data[..|data|] == data;
  }

  // ---------- codewords ----------

  /** A block is a codeword when it vanishes at the first `degree` powers of 2. */
  ghost predicate IsCodeword(block: Poly, degree: nat) {
    forall k :: 0 <= k < degree ==> Eval(block, Exp(k)) == 0
  }

  /** Data followed by its remainder is a codeword, whatever the data and its length. */
  lemma {:induction false} BlockIsCodeword(data: Poly, d: Poly, degree: nat)
    requires degree >= 1 && [1] + d == Generator(degree)
    ensures IsCodeword(data + Remainder(data, d), degree)
  {
    hide Add, Mul;
    DivisionTheorem(data, d);
    var q := Factors(data, d);
    forall k | 0 <= k < degree ensures Eval(data + Remainder(data, d), Exp(k)) == 0 {
      EvalMul(q, Generator(degree), Exp(k));
      GeneratorVanishes(degree, k);
      MulZero(Eval(q, Exp(k)));
    }
  }
}
