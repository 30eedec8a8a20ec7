/** Square grids of modules as values, and positions in them. */
module Grids {

  datatype Pos = Pos(x: int, y: int)

  function Abs(n: int): nat {
    if n < 0 then -n else n
  }

  /** A grid is a sequence of rows; a module is black when it is true. */
  type Grid = seq<seq<bool>>

  ghost predicate Square(g: Grid, size: nat) {
    |g| == size && forall y :: 0 <= y < size ==> |g[y]| == size
  }

  predicate Inside(p: Pos, size: nat) {
    0 <= p.x < size && 0 <= p.y < size
  }

  function At(g: Grid, p: Pos): bool
    requires Square(g, |g|) && Inside(p, |g|)
  {
    g[p.y][p.x]
  }

  function Set(g: Grid, p: Pos, b: bool): (g': Grid)
    requires Square(g, |g|) && Inside(p, |g|)
    ensures Square(g', |g|)
    ensures forall q :: Inside(q, |g|) ==> At(g', q) == if q == p then b else At(g, q)
  {
    g[p.y := g[p.y][p.x := b]]
  }

  /** Grids that agree at every position are equal. */
  lemma {:induction false} Extensional(g: Grid, h: Grid, size: nat)
    requires Square(g, size) && Square(h, size)
    requires forall p :: Inside(p, size) ==> At(g, p) == At(h, p)
    ensures g == h
  {
    forall y | 0 <= y < size ensures g[y] == h[y] {
      forall x | 0 <= x < size ensures g[y][x] == h[y][x] {
        assert At(g, Pos(x, y)) == At(h, Pos(x, y));
      }
    }
  }

  /** The positions of a path that `fn` leaves free, in order. */
  function Free(fn: Grid, path: seq<Pos>): (free: seq<Pos>)
    requires Square(fn, |fn|) && forall p :: p in path ==> Inside(p, |fn|)
    ensures forall p :: p in free <==> p in path && !At(fn, p)
  {
    if path == [] then []
    else
      var n := |path| - 1;
      assert path == path[..n] + [path[n]];
      Free(fn, path[..n]) + (if At(fn, path[n]) then [] else [path[n]])
  }

  lemma {:induction false} FreeKeepsOrder(fn: Grid, path: seq<Pos>, i: nat, j: nat)
    requires Square(fn, |fn|) && forall p :: p in path ==> Inside(p, |fn|)
    requires i < j < |Free(fn, path)|
    ensures exists k, l :: 0 <= k < l < |path| && path[k] == Free(fn, path)[i] && path[l] == Free(fn, path)[j]
  {
    var n := |path| - 1;
    assert path == path[..n] + [path[n]];
    var front := Free(fn, path[..n]);
    if j < |front| {
      FreeKeepsOrder(fn, path[..n], i, j);
      var k, l :| 0 <= k < l < n && path[..n][k] == front[i] && path[..n][l] == front[j];
      assert path[k] == front[i] && path[l] == front[j];
    } else {
      assert front[i] in path[..n];
      var k :| 0 <= k < n && path[..n][k] == front[i];
      assert path[k] == front[i] && path[n] == Free(fn, path)[j];
    }
  }

  ghost predicate NoRepeats(path: seq<Pos>) {
    forall i, j :: 0 <= i < j < |path| ==> path[i] != path[j]
  }

  lemma {:induction false} FreeNoRepeats(fn: Grid, path: seq<Pos>)
    requires Square(fn, |fn|) && forall p :: p in path ==> Inside(p, |fn|)
    requires NoRepeats(path)
    ensures NoRepeats(Free(fn, path))
  {
    if path != [] {
      var n := |path| - 1;
      assert path == path[..n] + [path[n]];
      FreeNoRepeats(fn, path[..n]);
    }
  }

  lemma {:induction false} FreeSnoc(fn: Grid, path: seq<Pos>, p: Pos)
    requires Square(fn, |fn|) && Inside(p, |fn|) && forall q :: q in path ==> Inside(q, |fn|)
    ensures forall q :: q in path + [p] ==> Inside(q, |fn|)
    ensures Free(fn, path + [p]) == Free(fn, path) + (if At(fn, p) then [] else [p])
  {
    assert (path + [p])[..|path|] == path;
  }

  /** The grid with the first `n` of `bits` written at the first `n` positions of `free`. */
  function Place(g: Grid, free: seq<Pos>, bits: seq<bool>, n: nat): (g': Grid)
    requires Square(g, |g|) && forall p :: p in free ==> Inside(p, |g|)
    requires n <= |free| && n <= |bits|
    ensures Square(g', |g|)
  {
    if n == 0 then g else Set(Place(g, free, bits, n - 1), free[n - 1], bits[n - 1])
  }

  /** Each bit is where it was put, and no other position has changed. */
  lemma {:induction false} PlaceAt(g: Grid, free: seq<Pos>, bits: seq<bool>, n: nat)
    requires Square(g, |g|) && forall p :: p in free ==> Inside(p, |g|)
    requires n <= |free| && n <= |bits| && NoRepeats(free)
    ensures forall i :: 0 <= i < n ==> At(Place(g, free, bits, n), free[i]) == bits[i]
    ensures forall p :: Inside(p, |g|) && p !in free[..n] ==> At(Place(g, free, bits, n), p) == At(g, p)
  {
    if n != 0 {
      PlaceAt(g, free, bits, n - 1);
      assert free[..n] == free[..n - 1] + [free[n - 1]];
    }
  }

  /** Positions beyond the first `n` do not matter. */
  lemma {:induction false} PlacePrefix(g: Grid, free: seq<Pos>, more: seq<Pos>, bits: seq<bool>, n: nat)
    requires Square(g, |g|) && forall p :: p in free + more ==> Inside(p, |g|)
    requires n <= |free| && n <= |bits|
    ensures forall p :: p in free ==> Inside(p, |g|)
    ensures Place(g, free + more, bits, n) == Place(g, free, bits, n)
  {
    assert forall p :: p in free ==> p in free + more;
    if n != 0 {
      PlacePrefix(g, free, more, bits, n - 1);
      assert (free + more)[n - 1] == free[n - 1];
    }
  }

  /** The modules along `free`. */
  function ReadAlong(g: Grid, free: seq<Pos>): (bits: seq<bool>)
    requires Square(g, |g|) && forall p :: p in free ==> Inside(p, |g|)
    ensures |bits| == |free|
  {
    seq(|free|, i requires 0 <= i < |free| => At(g, free[i]))
  }

  lemma {:induction false} ReadPlaced(g: Grid, free: seq<Pos>, bits: seq<bool>)
    requires Square(g, |g|) && forall p :: p in free ==> Inside(p, |g|)
    requires |bits| <= |free| && NoRepeats(free)
    ensures ReadAlong(Place(g, free, bits, |bits|), free)[..|bits|] == bits
  {
    hide Place;
    PlaceAt(g, free, bits, |bits|);
  }
}
