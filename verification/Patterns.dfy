/**
 The function patterns of a symbol as a list of shapes painted one over another.  A shape
 says which modules it covers and in which colour.
 */
module Patterns {
  import opened Bits
  import opened Grids
  import opened Tables
  import opened FormatInfo

  datatype Shape =
    | Timing
    | Finder(cx: int, cy: int)
    | Alignment(cx: int, cy: int)
    | Format(bits: nat)
    | Version(bits: nat)

  function Max(a: int, b: int): int {
    if a > b then a else b
  }

  /** The Chebyshev distance of `q` from a centre. */
  function Dist(q: Pos, cx: int, cy: int): nat {
    Max(Abs(q.x - cx), Abs(q.y - cy))
  }

  const DARK := 15
  const NOWHERE := -1

  /** Which format bit is at `q`; the module that is always black counts as bit 15. */
  function FormatIndex(size: nat, q: Pos): int {
    if q.x == 8 && 0 <= q.y <= 5 then q.y
    else if q == Pos(8, 7) then 6
    else if q == Pos(8, 8) then 7
    else if q == Pos(7, 8) then 8
    else if q.y == 8 && 0 <= q.x <= 5 then 14 - q.x
    else if q.y == 8 && size - 8 <= q.x <= size - 1 then size - 1 - q.x
    else if q.x == 8 && size - 7 <= q.y <= size - 1 then q.y - size + 15
    else if q == Pos(8, size - 8) then DARK
    else NOWHERE
  }

  /** Which version bit is at `q`. */
  function VersionIndex(size: nat, q: Pos): int {
    if size - 11 <= q.x <= size - 9 && 0 <= q.y <= 5 then 3 * q.y + q.x - (size - 11)
    else if size - 11 <= q.y <= size - 9 && 0 <= q.x <= 5 then 3 * q.x + q.y - (size - 11)
    else NOWHERE
  }

  predicate Covers(s: Shape, size: nat, q: Pos) {
    match s
    case Timing => q.x == 6 || q.y == 6
    case Finder(cx, cy) => Dist(q, cx, cy) <= 4
    case Alignment(cx, cy) => Dist(q, cx, cy) <= 2
    case Format(_) => FormatIndex(size, q) != NOWHERE
    case Version(_) => VersionIndex(size, q) != NOWHERE
  }

  function Colour(s: Shape, size: nat, q: Pos): bool
    requires Covers(s, size, q)
  {
    match s
    case Timing => (if q.y == 6 then q.x else q.y) % 2 == 0
    case Finder(cx, cy) => Dist(q, cx, cy) != 2 && Dist(q, cx, cy) != 4
    case Alignment(cx, cy) => Dist(q, cx, cy) != 1
    case Format(bits) => FormatIndex(size, q) == DARK || GetBit(bits, FormatIndex(size, q))
    case Version(bits) => GetBit(bits, VersionIndex(size, q))
  }

  // ---------- painting ----------

  /** The grid with `s` painted over it. */
  function Paint(g: Grid, s: Shape): (g': Grid)
    requires Square(g, |g|)
    ensures Square(g', |g|)
    ensures forall q :: Inside(q, |g|) ==>
              At(g', q) == if Covers(s, |g|, q) then Colour(s, |g|, q) else At(g, q)
  {
    seq(|g|, y requires 0 <= y < |g| =>
      seq(|g|, x requires 0 <= x < |g| =>
        if Covers(s, |g|, Pos(x, y)) then Colour(s, |g|, Pos(x, y)) else g[y][x]))
  }

  /** The reservation grid with everything under `s` reserved. */
  function Mark(fn: Grid, s: Shape): (fn': Grid)
    requires Square(fn, |fn|)
    ensures Square(fn', |fn|)
    ensures forall q :: Inside(q, |fn|) ==> (At(fn', q) <==> At(fn, q) || Covers(s, |fn|, q))
  {
    seq(|fn|, y requires 0 <= y < |fn| =>
      seq(|fn|, x requires 0 <= x < |fn| => fn[y][x] || Covers(s, |fn|, Pos(x, y))))
  }

  function PaintAll(g: Grid, shapes: seq<Shape>): (g': Grid)
    requires Square(g, |g|)
    ensures Square(g', |g|)
  {
    if shapes == [] then g else Paint(PaintAll(g, shapes[..|shapes| - 1]), shapes[|shapes| - 1])
  }

  function MarkAll(fn: Grid, shapes: seq<Shape>): (fn': Grid)
    requires Square(fn, |fn|)
    ensures Square(fn', |fn|)
  {
    if shapes == [] then fn else Mark(MarkAll(fn, shapes[..|shapes| - 1]), shapes[|shapes| - 1])
  }

  lemma {:induction false} PaintAllSnoc(g: Grid, shapes: seq<Shape>, s: Shape)
    requires Square(g, |g|)
    ensures PaintAll(g, shapes + [s]) == Paint(PaintAll(g, shapes), s)
    ensures MarkAll(g, shapes + [s]) == Mark(MarkAll(g, shapes), s)
  {
    assert (shapes + [s])[..|shapes|] == shapes;
  }

  lemma {:induction false} PaintAllAppend(g: Grid, a: seq<Shape>, b: seq<Shape>)
    requires Square(g, |g|)
    ensures PaintAll(g, a + b) == PaintAll(PaintAll(g, a), b)
    ensures MarkAll(g, a + b) == MarkAll(MarkAll(g, a), b)
  {
    hide Paint, Mark;
    if b == [] {
      assert a + b == a;
    } else {
      var n := |b| - 1;
      PaintAllAppend(g, a, b[..n]);
      assert (a + b)[..|a| + n] == a + b[..n];
    }
  }

  /** A module is reserved when some shape covers it. */
  lemma {:induction false} MarkAllAt(fn: Grid, shapes: seq<Shape>, q: Pos)
    requires Square(fn, |fn|) && Inside(q, |fn|)
    ensures At(MarkAll(fn, shapes), q) <==> At(fn, q) || exists s :: s in shapes && Covers(s, |fn|, q)
  {
    if shapes != [] {
      var n := |shapes| - 1;
      MarkAllAt(fn, shapes[..n], q);
      assert shapes == shapes[..n] + [shapes[n]];
    }
  }

  /** A module has the colour of the last shape that covers it, or keeps its own if none does. */
  lemma {:induction false} PaintAllAt(g: Grid, shapes: seq<Shape>, q: Pos, k: int)
    requires Square(g, |g|) && Inside(q, |g|)
    requires -1 <= k < |shapes| && (k >= 0 ==> Covers(shapes[k], |g|, q))
    requires forall i :: k < i < |shapes| ==> !Covers(shapes[i], |g|, q)
    ensures At(PaintAll(g, shapes), q) == if k >= 0 then Colour(shapes[k], |g|, q) else At(g, q)
  {
    var n := |shapes| - 1;
    if k < n {
      PaintAllAt(g, shapes[..n], q, k);
    }
  }

  // ---------- painting in scan order ----------

  predicate Precedes(q: Pos, y: int, x: int) {
    q.y < y || (q.y == y && q.x < x)
  }

  /** `g` is `g0` with those modules of `s` painted that come before column `x` of row `y`. */
  ghost predicate PaintedBefore(g0: Grid, g: Grid, s: Shape, y: int, x: int) {
    && Square(g0, |g0|) && Square(g, |g0|)
    && forall q :: Inside(q, |g0|) ==>
         At(g, q) == if Covers(s, |g0|, q) && Precedes(q, y, x) then Colour(s, |g0|, q) else At(g0, q)
  }

  ghost predicate MarkedBefore(fn0: Grid, fn: Grid, s: Shape, y: int, x: int) {
    && Square(fn0, |fn0|) && Square(fn, |fn0|)
    && forall q :: Inside(q, |fn0|) ==> (At(fn, q) <==> At(fn0, q) || (Covers(s, |fn0|, q) && Precedes(q, y, x)))
  }

  /** Nothing of `s` lies between two scan positions. */
  ghost predicate NothingBetween(size: nat, s: Shape, y: int, x: int, y': int, x': int) {
    forall q :: Inside(q, size) && Covers(s, size, q) ==> (Precedes(q, y, x) <==> Precedes(q, y', x'))
  }

  lemma {:induction false} PaintStarts(g0: Grid, fn0: Grid, s: Shape, y: int, x: int)
    requires Square(g0, |g0|) && Square(fn0, |g0|)
    requires forall q :: Inside(q, |g0|) && Covers(s, |g0|, q) ==> !Precedes(q, y, x)
    ensures PaintedBefore(g0, g0, s, y, x) && MarkedBefore(fn0, fn0, s, y, x)
  {
    hide Covers, Colour;
  }

  lemma {:induction false} PaintSkips(g0: Grid, g: Grid, fn0: Grid, fn: Grid, s: Shape, y: int, x: int, y': int, x': int)
    requires PaintedBefore(g0, g, s, y, x) && MarkedBefore(fn0, fn, s, y, x) && |g0| == |fn0|
    requires NothingBetween(|g0|, s, y, x, y', x')
    ensures PaintedBefore(g0, g, s, y', x') && MarkedBefore(fn0, fn, s, y', x')
  {
    hide Covers, Colour;
  }

  lemma {:induction false} PaintStep(g0: Grid, g: Grid, fn0: Grid, fn: Grid, s: Shape, p: Pos)
    requires PaintedBefore(g0, g, s, p.y, p.x) && MarkedBefore(fn0, fn, s, p.y, p.x) && |g0| == |fn0|
    requires Inside(p, |g0|) && Covers(s, |g0|, p)
    ensures PaintedBefore(g0, Set(g, p, Colour(s, |g0|, p)), s, p.y, p.x + 1)
    ensures MarkedBefore(fn0, Set(fn, p, true), s, p.y, p.x + 1)
  {
    hide Covers, Colour, Set;
  }

  /** Once the scan is past the last module of `s`, the whole shape is painted. */
  lemma {:induction false} PaintEnds(g0: Grid, g: Grid, fn0: Grid, fn: Grid, s: Shape, y: int, x: int)
    requires PaintedBefore(g0, g, s, y, x) && MarkedBefore(fn0, fn, s, y, x) && |g0| == |fn0|
    requires forall q :: Inside(q, |g0|) && Covers(s, |g0|, q) ==> Precedes(q, y, x)
    ensures g == Paint(g0, s) && fn == Mark(fn0, s)
  {
    hide Covers, Colour, Paint, Mark;
    Extensional(g, Paint(g0, s), |g0|);
    Extensional(fn, Mark(fn0, s), |g0|);
  }

  /** The modules within `r` of a centre, in scan order. */
  lemma {:induction false} DiscGeometry(size: nat, s: Shape, r: nat, cx: int, cy: int)
    requires (s == Finder(cx, cy) && r == 4) || (s == Alignment(cx, cy) && r == 2)
    ensures forall q :: Inside(q, size) && Covers(s, size, q) ==> !Precedes(q, cy - r, cx - r)
    ensures forall q :: Inside(q, size) && Covers(s, size, q) ==> Precedes(q, cy + r + 1, cx - r)
  {
  }

  lemma {:induction false} RowGeometry(size: nat, s: Shape, r: nat, cx: int, cy: int, y: int)
    requires (s == Finder(cx, cy) && r == 4) || (s == Alignment(cx, cy) && r == 2)
    ensures NothingBetween(size, s, y, cx + r + 1, y + 1, cx - r)
  {
  }

  lemma {:induction false} OutsideGeometry(size: nat, s: Shape, x: int, y: int)
    requires !Inside(Pos(x, y), size)
    ensures NothingBetween(size, s, y, x, y, x + 1)
  {
  }

  // ---------- painting in any order ----------

  /** `g` and `fn` are `g0` and `fn0` with the modules in `done` painted as `s` and reserved. */
  ghost predicate PaintedOn(g0: Grid, g: Grid, fn0: Grid, fn: Grid, s: Shape, done: set<Pos>) {
    && Square(g0, |g0|) && Square(g, |g0|) && Square(fn0, |g0|) && Square(fn, |g0|)
    && (forall q :: q in done ==> Covers(s, |g0|, q))
    && (forall q :: Inside(q, |g0|) ==> At(g, q) == if q in done then Colour(s, |g0|, q) else At(g0, q))
    && (forall q :: Inside(q, |g0|) ==> (At(fn, q) <==> At(fn0, q) || q in done))
  }

  lemma {:induction false} PaintOne(g0: Grid, g: Grid, fn0: Grid, fn: Grid, s: Shape, done: set<Pos>, p: Pos)
    requires PaintedOn(g0, g, fn0, fn, s, done)
    requires Inside(p, |g0|) && Covers(s, |g0|, p)
    ensures PaintedOn(g0, Set(g, p, Colour(s, |g0|, p)), fn0, Set(fn, p, true), s, done + {p})
  {
    hide Covers, Colour, Set;
  }

  lemma {:induction false} PaintDone(g0: Grid, g: Grid, fn0: Grid, fn: Grid, s: Shape, done: set<Pos>)
    requires PaintedOn(g0, g, fn0, fn, s, done)
    requires forall q :: Inside(q, |g0|) && Covers(s, |g0|, q) ==> q in done
    ensures g == Paint(g0, s) && fn == Mark(fn0, s)
  {
    hide Covers, Colour, Paint, Mark;
    Extensional(g, Paint(g0, s), |g0|);
    Extensional(fn, Mark(fn0, s), |g0|);
  }

  // ---------- the shapes of a version ----------

  function Size(ver: int): nat
    requires IsVersion(ver)
  {
    ver * 4 + 17
  }

  function NumAlign(ver: int): nat
    requires IsVersion(ver)
  {
    if ver == 1 then 0 else ver / 7 + 2
  }

  function AlignStep(ver: int): int
    requires IsVersion(ver) && ver >= 2
  {
    if ver == 32 then 26
    else (ver * 4 + NumAlign(ver) * 2 + 1) / (NumAlign(ver) * 2 - 2) * 2
  }

  /** The `i`-th alignment pattern coordinate, in ascending order. */
  function AlignPos(ver: int, i: nat): int
    requires IsVersion(ver) && i < NumAlign(ver)
  {
    if i == 0 then 6 else Size(ver) - 7 - (NumAlign(ver) - 1 - i) * AlignStep(ver)
  }

  function AlignPositions(ver: int): (a: seq<int>)
    requires IsVersion(ver)
    ensures |a| == NumAlign(ver)
  {
    seq(NumAlign(ver), i requires 0 <= i < NumAlign(ver) => AlignPos(ver, i))
  }

  /** Whether the pair of indices names one of the three finder corners. */
  predicate Corner(n: nat, i: nat, j: nat) {
    (i == 0 && j == 0) || (i == 0 && j == n - 1) || (i == n - 1 && j == 0)
  }

  /** The alignment patterns of row `i` with index below `j`. */
  function AlignRow(a: seq<int>, i: nat, j: nat): seq<Shape>
    requires i < |a| && j <= |a|
  {
    if j == 0 then []
    else AlignRow(a, i, j - 1) + (if Corner(|a|, i, j - 1) then [] else [Alignment(a[i], a[j - 1])])
  }

  function AlignRows(a: seq<int>, i: nat): seq<Shape>
    requires i <= |a|
  {
    if i == 0 then [] else AlignRows(a, i - 1) + AlignRow(a, i - 1, |a|)
  }

  function Finders(size: nat): seq<Shape> {
    [Finder(3, 3), Finder(size - 4, 3), Finder(3, size - 4)]
  }

  function VersionShapes(ver: int): seq<Shape>
    requires IsVersion(ver)
  {
    if ver < 7 then [] else [Version(VersionWord(ver))]
  }

  /** All function patterns, in the order they are drawn. */
  function FunctionShapes(ver: int, ecl: Ecc, mask: nat): seq<Shape>
    requires IsVersion(ver)
  {
    [Timing] + Finders(Size(ver)) + AlignRows(AlignPositions(ver), NumAlign(ver))
    + [Format(FormatWord(ecl, mask))] + VersionShapes(ver)
  }

  /** The alignment pattern `s` has indices `i` and `k`. */
  predicate IsAlign(a: seq<int>, i: int, k: int, s: Shape) {
    0 <= i < |a| && 0 <= k < |a| && !Corner(|a|, i, k) && s == Alignment(a[i], a[k])
  }

  lemma {:induction false} AlignRowMembers(a: seq<int>, i: nat, j: nat, s: Shape)
    requires i < |a| && j <= |a|
    ensures s in AlignRow(a, i, j) <==> exists k :: k < j && IsAlign(a, i, k, s)
  {
    hide Corner;
    if j != 0 {
      AlignRowMembers(a, i, j - 1, s);
      if s == Alignment(a[i], a[j - 1]) && !Corner(|a|, i, j - 1) {
        assert IsAlign(a, i, j - 1, s);
      }
    }
  }

  lemma {:induction false} AlignRowsMembers(a: seq<int>, n: nat, s: Shape)
    requires n <= |a|
    ensures s in AlignRows(a, n) <==> exists i, k :: i < n && IsAlign(a, i, k, s)
  {
    hide IsAlign, AlignRow;
    AlignIndices(a);
    if n != 0 {
      AlignRowsMembers(a, n - 1, s);
      AlignRowMembers(a, n - 1, |a|, s);
    }
  }

  lemma {:induction false} AlignIndices(a: seq<int>)
    ensures forall i, k, s :: IsAlign(a, i, k, s) ==> 0 <= i < |a| && 0 <= k < |a|
  {
  }
}
