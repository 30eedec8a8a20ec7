/** The mask patterns drawn out: along each row a mask repeats a few columns. */
module MaskPictures {
  import opened Masking

  /** How many columns a mask repeats. */
  function Width(m: nat): (w: nat)
    ensures w > 0
  {
    match m
    case 0 => 2
    case 1 => 1
    case 2 => 3
    case 3 => 3
    case _ => 6
  }

  /** The columns, of those, that mask `m` inverts in row `y`. */
  function Columns(m: nat, y: nat): set<nat> {
    match m
    case 0 => if y % 2 == 0 then {0} else {1}
    case 1 => if y % 2 == 0 then {0} else {}
    case 2 => {0}
    case 3 => if y % 3 == 0 then {0} else if y % 3 == 1 then {2} else {1}
    case 4 => if y % 4 < 2 then {0, 1, 2} else {3, 4, 5}
    case 5 => Pick(y % 6, {0, 1, 2, 3, 4, 5}, {0}, {0, 3}, {0, 2, 4}, {0, 3}, {0})
    case 6 => Pick(y % 6, {0, 1, 2, 3, 4, 5}, {0, 1, 2}, {0, 1, 3, 4}, {0, 2, 4}, {0, 2, 3, 5}, {0, 4, 5})
    case _ => Pick(y % 6, {0, 2, 4}, {3, 4, 5}, {0, 4, 5}, {1, 3, 5}, {0, 1, 2}, {1, 2, 3})
  }

  function Pick(v: nat, r0: set<nat>, r1: set<nat>, r2: set<nat>, r3: set<nat>, r4: set<nat>, r5: set<nat>): set<nat> {
    match v
    case 0 => r0
    case 1 => r1
    case 2 => r2
    case 3 => r3
    case 4 => r4
    case _ => r5
  }

  /** Every mask inverts exactly these columns, over and over. */
  lemma {:induction false} MaskRepeats(m: nat, x: nat, y: nat)
    requires m < 8
    ensures Invert(m, x, y) <==> x % Width(m) in Columns(m, y)
  {
    hide Invert, Columns, Width;
    match m
    case 0 => Mask0(x, y);
    case 1 => Mask1(x, y);
    case 2 => Mask2(x, y);
    case 3 => Mask3(x, y);
    case 4 => Mask4(x, y);
    case _ => ProductMask(m, x, y);
  }

  lemma {:induction false} Mask0(x: nat, y: nat)
    ensures Invert(0, x, y) <==> x % Width(0) in Columns(0, y)
  {
  }

  lemma {:induction false} Mask1(x: nat, y: nat)
    ensures Invert(1, x, y) <==> x % Width(1) in Columns(1, y)
  {
  }

  lemma {:induction false} Mask2(x: nat, y: nat)
    ensures Invert(2, x, y) <==> x % Width(2) in Columns(2, y)
  {
  }

  lemma {:induction false} Mask3(x: nat, y: nat)
    ensures Invert(3, x, y) <==> x % Width(3) in Columns(3, y)
  {
    SumThirds(x % 3, y % 3, x / 3, y / 3);
  }

  lemma {:induction false} SumThirds(u: nat, v: nat, a: nat, b: nat)
    requires u < 3 && v < 3
    ensures (3 * a + u + (3 * b + v)) % 3 == 0 <==> u + v == 0 || u + v == 3
  {
  }

  lemma {:induction false} Mask4(x: nat, y: nat)
    ensures Invert(4, x, y) <==> x % Width(4) in Columns(4, y)
  {
    hide Pick;
    Bands(x, 3);
    Bands(y, 2);
    BandParity(x / 3, y / 2, x % 6, y % 4);
  }

  lemma {:induction false} BandParity(a: nat, b: nat, u: nat, v: nat)
    requires a % 2 == u / 3 && b % 2 == v / 2 && u < 6 && v < 4
    ensures (a + b) % 2 == 0 <==> (v < 2 <==> u < 3)
  {
  }

  lemma {:induction false} Bands(x: nat, n: nat)
    requires n == 2 || n == 3
    ensures x / n % 2 == x % (2 * n) / n
  {
  }

  // ---------- masks 5 to 7 ----------

  /** What a product leaves over six, two and three depends on the last six of its factors. */
  lemma {:induction false} ProductSixths(x: nat, y: nat)
    ensures x * y % 6 == (x % 6) * (y % 6) % 6
  {
    var u, v := x % 6, y % 6;
    assert x * y % 6 == u * y % 6 by {
      DropSixes(x / 6, u, y);
    }
    assert u * y % 6 == u * v % 6 by {
      DropSixes(y / 6, v, u);
      Commutes(u, y);
      Commutes(u, v);
    }
  }

  lemma {:induction false} Commutes(u: int, v: int)
    ensures u * v == v * u
  {
  }

  lemma {:induction false} DropSixes(a: nat, u: nat, y: nat)
    ensures (6 * a + u) * y % 6 == u * y % 6
  {
    Distribute(a, u, y);
    Multiple(a * y, u * y);
  }

  lemma {:induction false} Distribute(a: nat, u: nat, y: nat)
    ensures (6 * a + u) * y == 6 * (a * y) + u * y
  {
  }

  lemma {:induction false} Multiple(k: nat, n: nat)
    ensures (6 * k + n) % 6 == n % 6
  {
  }

  lemma {:induction false} Sixths(n: nat)
    ensures n % 2 == n % 6 % 2 && n % 3 == n % 6 % 3
  {
  }

  lemma {:induction false} SumParity(x: nat, y: nat)
    ensures (x + y) % 2 == (x % 6 + y % 6) % 2
  {
  }

  /** The three formulas of the product `n` and the sum `s`. */
  predicate Formula(m: nat, n: nat, s: nat) {
    if m == 5 then n % 2 + n % 3 == 0
    else if m == 6 then (n % 2 + n % 3) % 2 == 0
    else (s % 2 + n % 3) % 2 == 0
  }

  lemma {:induction false} InvertIsFormula(m: nat, x: nat, y: nat)
    requires 5 <= m < 8
    ensures Invert(m, x, y) == Formula(m, x * y, x + y)
  {
  }

  lemma {:induction false} SameFormula(m: nat, n: nat, k: nat, s: nat, t: nat)
    requires n % 6 == k % 6 && s % 2 == t % 2
    ensures Formula(m, n, s) == Formula(m, k, t)
  {
    Sixths(n);
    Sixths(k);
  }

  lemma {:induction false} InvertRepeats(m: nat, x: nat, y: nat)
    requires 5 <= m < 8
    ensures Invert(m, x, y) == Formula(m, (x % 6) * (y % 6), x % 6 + y % 6)
  {
    hide Invert, Formula;
    InvertIsFormula(m, x, y);
    ProductSixths(x, y);
    SumParity(x, y);
    SameFormula(m, x * y, (x % 6) * (y % 6), x + y, x % 6 + y % 6);
  }

  lemma {:induction false} ColumnsRepeat(m: nat, y: nat)
    requires 5 <= m < 8
    ensures Width(m) == 6 && Columns(m, y) == Columns(m, y % 6)
  {
    hide Pick;
  }

  lemma {:induction false} ProductMask(m: nat, x: nat, y: nat)
    requires 5 <= m < 8
    ensures Invert(m, x, y) <==> x % Width(m) in Columns(m, y)
  {
    hide Invert, Formula, Columns, Width;
    InvertRepeats(m, x, y);
    ColumnsRepeat(m, y);
    if m == 5 {
      Mask5(x % 6, y % 6);
    } else if m == 6 {
      Mask6(x % 6, y % 6);
    } else {
      Mask7(x % 6, y % 6);
    }
  }

  predicate IsProduct(u: nat, v: nat, n: nat) {
    && (v == 0 ==> n == 0)
    && (v == 1 ==> n == u)
    && (v == 2 ==> n == 2 * u)
    && (v == 3 ==> n == 3 * u)
    && (v == 4 ==> n == 4 * u)
    && (v == 5 ==> n == 5 * u)
  }

  lemma {:induction false} Mask5(u: nat, v: nat)
    requires u < 6 && v < 6
    ensures Formula(5, u * v, u + v) <==> u in Columns(5, v)
  {
    assert IsProduct(u, v, u * v);
    Small5(u, v, u * v);
  }

  lemma {:induction false} Small5(u: nat, v: nat, n: nat)
    requires u < 6 && v < 6 && IsProduct(u, v, n)
    ensures Formula(5, n, u + v) <==> u in Columns(5, v)
  {
    assert u == 0 || u == 1 || u == 2 || u == 3 || u == 4 || u == 5;
  }

  lemma {:induction false} Mask6(u: nat, v: nat)
    requires u < 6 && v < 6
    ensures Formula(6, u * v, u + v) <==> u in Columns(6, v)
  {
    assert IsProduct(u, v, u * v);
    Small6(u, v, u * v);
  }

  lemma {:induction false} Small6(u: nat, v: nat, n: nat)
    requires u < 6 && v < 6 && IsProduct(u, v, n)
    ensures Formula(6, n, u + v) <==> u in Columns(6, v)
  {
    assert u == 0 || u == 1 || u == 2 || u == 3 || u == 4 || u == 5;
  }

  lemma {:induction false} Mask7(u: nat, v: nat)
    requires u < 6 && v < 6
    ensures Formula(7, u * v, u + v) <==> u in Columns(7, v)
  {
    hide Formula, Columns;
    assert IsProduct(u, v, u * v);
    if v < 2 {
      Rows0And1(u, v, u * v);
    } else if v < 4 {
      Rows2And3(u, v, u * v);
    } else {
      Rows4And5(u, v, u * v);
    }
  }

  lemma {:induction false} Rows0And1(u: nat, v: nat, n: nat)
    requires u < 6 && 0 <= v < 2 && IsProduct(u, v, n)
    ensures Formula(7, n, u + v) <==> u in Columns(7, v)
  {
    assert u == 0 || u == 1 || u == 2 || u == 3 || u == 4 || u == 5;
  }

  lemma {:induction false} Rows2And3(u: nat, v: nat, n: nat)
    requires u < 6 && 2 <= v < 4 && IsProduct(u, v, n)
    ensures Formula(7, n, u + v) <==> u in Columns(7, v)
  {
    assert u == 0 || u == 1 || u == 2 || u == 3 || u == 4 || u == 5;
  }

  lemma {:induction false} Rows4And5(u: nat, v: nat, n: nat)
    requires u < 6 && 4 <= v < 6 && IsProduct(u, v, n)
    ensures Formula(7, n, u + v) <==> u in Columns(7, v)
  {
    assert u == 0 || u == 1 || u == 2 || u == 3 || u == 4 || u == 5;
  }
}
