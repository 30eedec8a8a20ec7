/** Counting sets of positions. */
module PosSets {
  import opened FiniteSets
  import opened Grids

  function Span(lo: int, hi: int): (r: set<int>)
    requires lo <= hi
    ensures forall x :: x in r <==> lo <= x < hi
    ensures |r| == hi - lo
    decreases hi - lo
  {
    if lo == hi then {} else Span(lo, hi - 1) + {hi - 1}
  }

  function Product(xs: set<int>, ys: set<int>): (r: set<Pos>)
    ensures forall q :: q in r <==> q.x in xs && q.y in ys
  {
    set x, y | x in xs && y in ys :: Pos(x, y)
  }

  lemma {:induction false} ColumnCount(x: int, ys: set<int>)
    ensures |Product({x}, ys)| == |ys|
  {
    if y :| y in ys {
      ColumnCount(x, ys - {y});
      assert Product({x}, ys) == Product({x}, ys - {y}) + {Pos(x, y)};
    } else {
      assert forall y :: y !in ys;
      assert ys == {};
      assert Product({x}, ys) == {};
    }
  }

  lemma {:induction false} ProductCount(xs: set<int>, ys: set<int>)
    ensures |Product(xs, ys)| == |xs| * |ys|
  {
    hide Product;
    if x :| x in xs {
      ProductCount(xs - {x}, ys);
      ColumnCount(x, ys);
      assert Product(xs, ys) == Product(xs - {x}, ys) + Product({x}, ys);
      assert Product(xs - {x}, ys) !! Product({x}, ys);
      assert |xs| == |xs - {x}| + 1;
      assert |xs| * |ys| == |xs - {x}| * |ys| + |ys|;
    } else {
      assert forall x :: x !in xs;
      assert xs == {};
      assert Product(xs, ys) == {};
    }
  }

  /** A set of positions inside a square has at most as many members as the square. */
  lemma {:induction false} SquareBound(s: set<Pos>, size: nat)
    requires forall p :: p in s ==> Inside(p, size)
    ensures |s| <= size * size
  {
    var all := Product(Span(0, size), Span(0, size));
    ProductCount(Span(0, size), Span(0, size));
    SubsetCount(s, all);
  }

  /** The members of `s` that a row-by-row scan has met before reaching column `x` of row `y`. */
  ghost function Before(s: set<Pos>, y: int, x: int): set<Pos> {
    set p | p in s && (p.y < y || (p.y == y && p.x < x))
  }

  lemma {:induction false} BeforeStep(s: set<Pos>, y: int, x: int)
    ensures |Before(s, y, x + 1)| == |Before(s, y, x)| + (if Pos(x, y) in s then 1 else 0)
  {
    if Pos(x, y) in s {
      assert Before(s, y, x + 1) == Before(s, y, x) + {Pos(x, y)};
    } else {
      assert Before(s, y, x + 1) == Before(s, y, x);
    }
  }

  lemma {:induction false} BeforeRow(s: set<Pos>, y: int, width: int)
    requires forall p :: p in s ==> 0 <= p.x < width
    ensures Before(s, y, width) == Before(s, y + 1, 0)
  {
  }
}
