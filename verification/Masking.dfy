/** The eight mask patterns and what makes them undoable. */
module Masking {
  import opened Grids
  import opened Patterns

  /** Whether mask `m` inverts the data module in column `x` of row `y`. */
  predicate Invert(m: nat, x: nat, y: nat) {
    match m
    case 0 => (x + y) % 2 == 0
    case 1 => y % 2 == 0
    case 2 => x % 3 == 0
    case 3 => (x + y) % 3 == 0
    case 4 => (x / 3 + y / 2) % 2 == 0
    case 5 => x * y % 2 + x * y % 3 == 0
    case 6 => (x * y % 2 + x * y % 3) % 2 == 0
    case _ => ((x + y) % 2 + x * y % 3) % 2 == 0
  }

  /** The grid with mask `m` applied to every module that is not reserved. */
  function Masked(g: Grid, fn: Grid, m: nat): (g': Grid)
    requires Square(g, |g|) && Square(fn, |g|)
    ensures Square(g', |g|)
    ensures forall q :: Inside(q, |g|) ==> At(g', q) == (At(g, q) != (Invert(m, q.x, q.y) && !At(fn, q)))
  {
    seq(|g|, y requires 0 <= y < |g| =>
      seq(|g|, x requires 0 <= x < |g| => g[y][x] != (Invert(m, x, y) && !fn[y][x])))
  }

  /** `g` is `g0` with the mask applied to the modules before column `x` of row `y`. */
  ghost predicate MaskedBefore(g0: Grid, g: Grid, fn: Grid, m: nat, y: int, x: int) {
    && Square(g0, |g0|) && Square(g, |g0|) && Square(fn, |g0|)
    && forall q :: Inside(q, |g0|) ==>
         At(g, q) == (At(g0, q) != (Precedes(q, y, x) && Invert(m, q.x, q.y) && !At(fn, q)))
  }

  lemma {:induction false} MaskStep(g0: Grid, g: Grid, fn: Grid, m: nat, p: Pos)
    requires MaskedBefore(g0, g, fn, m, p.y, p.x) && Inside(p, |g0|)
    ensures MaskedBefore(g0, Set(g, p, At(g, p) != (Invert(m, p.x, p.y) && !At(fn, p))), fn, m, p.y, p.x + 1)
  {
    hide Set, Invert;
  }

  lemma {:induction false} MaskEnds(g0: Grid, g: Grid, fn: Grid, m: nat)
    requires MaskedBefore(g0, g, fn, m, |g0|, 0)
    ensures g == Masked(g0, fn, m)
  {
    hide Masked, Invert;
    Extensional(g, Masked(g0, fn, m), |g0|);
  }

  lemma {:induction false} MaskRow(g0: Grid, g: Grid, fn: Grid, m: nat, y: int)
    requires MaskedBefore(g0, g, fn, m, y, |g0|)
    ensures MaskedBefore(g0, g, fn, m, y + 1, 0)
  {
    hide Invert;
  }

  /** Applying a mask twice does nothing. */
  lemma {:induction false} MaskUndoes(g: Grid, fn: Grid, m: nat)
    requires Square(g, |g|) && Square(fn, |g|)
    ensures Masked(Masked(g, fn, m), fn, m) == g
  {
    hide Masked, Invert;
    Extensional(Masked(Masked(g, fn, m), fn, m), g, |g|);
  }

  /** A mask does not touch a shape whose modules are all reserved. */
  lemma {:induction false} MaskCommutes(g: Grid, fn: Grid, m: nat, s: Shape)
    requires Square(g, |g|) && Square(fn, |g|)
    requires forall q :: Inside(q, |g|) && Covers(s, |g|, q) ==> At(fn, q)
    ensures Masked(Paint(g, s), fn, m) == Paint(Masked(g, fn, m), s)
  {
    hide Masked, Paint, Invert, Covers, Colour;
    Extensional(Masked(Paint(g, s), fn, m), Paint(Masked(g, fn, m), s), |g|);
  }

  /** Painting format bits again hides what they were before. */
  lemma {:induction false} RepaintFormat(g: Grid, before: nat, after: nat)
    requires Square(g, |g|)
    ensures Paint(Paint(g, Format(before)), Format(after)) == Paint(g, Format(after))
  {
    hide Paint, Colour, FormatIndex;
    Extensional(Paint(Paint(g, Format(before)), Format(after)), Paint(g, Format(after)), |g|);
  }
}
