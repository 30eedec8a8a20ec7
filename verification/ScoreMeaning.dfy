/** The whole penalty score in terms of the modules of the grid, along rows and along columns. */
module ScoreMeaning {
  import opened FiniteSets
  import opened Grids
  import opened Penalty
  import opened PenaltyMeaning

  datatype Direction = Horizontal | Vertical

  /** Module `j` of line `i`: rows are horizontal lines, columns are vertical ones. */
  function Module(d: Direction, i: int, j: int): Pos {
    if d == Horizontal then Pos(j, i) else Pos(i, j)
  }

  function Line(g: Grid, d: Direction, i: nat): (line: seq<bool>)
    requires Square(g, |g|) && i < |g|
    ensures |line| == |g|
  {
    seq(|g|, j requires 0 <= j < |g| => At(g, Module(d, i, j)))
  }

  datatype GridPoint = GridPoint(d: Direction, i: nat, p: RunPoint)

  datatype GridWindow = GridWindow(d: Direction, i: nat, w: Window)

  /** The run points of all rows and columns. */
  ghost function GridPoints(g: Grid): (s: set<GridPoint>)
    requires Square(g, |g|)
    ensures forall q :: q in s <==> q.i < |g| && q.p in RunPoints(Line(g, q.d, q.i))
  {
    PointsUpTo(g, Horizontal, |g|) + PointsUpTo(g, Vertical, |g|)
  }

  ghost function GridWindows(g: Grid): (s: set<GridWindow>)
    requires Square(g, |g|)
    ensures forall q :: q in s <==> q.i < |g| && q.w in Windows(Line(g, q.d, q.i))
  {
    WindowsUpTo(g, Horizontal, |g|) + WindowsUpTo(g, Vertical, |g|)
  }

  ghost function PointsUpTo(g: Grid, d: Direction, n: nat): (s: set<GridPoint>)
    requires Square(g, |g|) && n <= |g|
    ensures forall q :: q in s <==> q.d == d && q.i < n && q.p in RunPoints(Line(g, d, q.i))
  {
    if n == 0 then {}
    else PointsUpTo(g, d, n - 1) + PointsOn(d, n - 1, RunPoints(Line(g, d, n - 1)))
  }

  ghost function WindowsUpTo(g: Grid, d: Direction, n: nat): (s: set<GridWindow>)
    requires Square(g, |g|) && n <= |g|
    ensures forall q :: q in s <==> q.d == d && q.i < n && q.w in Windows(Line(g, d, q.i))
  {
    if n == 0 then {}
    else WindowsUpTo(g, d, n - 1) + WindowsOn(d, n - 1, Windows(Line(g, d, n - 1)))
  }

  ghost function LinesPenalty(g: Grid, d: Direction, n: nat): nat
    requires Square(g, |g|) && n <= |g|
  {
    if n == 0 then 0 else LinesPenalty(g, d, n - 1) + LinePenalty(Line(g, d, n - 1))
  }

  /** Points of one line, as points of the grid. */
  ghost function PointsOn(d: Direction, i: nat, points: set<RunPoint>): (s: set<GridPoint>)
    ensures forall q :: q in s <==> q.d == d && q.i == i && q.p in points
  {
    set p | p in points :: GridPoint(d, i, p)
  }

  ghost function WindowsOn(d: Direction, i: nat, windows: set<Window>): (s: set<GridWindow>)
    ensures forall q :: q in s <==> q.d == d && q.i == i && q.w in windows
  {
    set w | w in windows :: GridWindow(d, i, w)
  }

  lemma {:induction false} PointsOnSize(d: Direction, i: nat, points: set<RunPoint>)
    ensures |PointsOn(d, i, points)| == |points|
  {
    var lift := (p: RunPoint) => GridPoint(d, i, p);
    forall q | q in PointsOn(d, i, points) ensures exists p :: p in points && lift(p) == q {
      assert q.p in points && lift(q.p) == q;
    }
    SameSize(points, PointsOn(d, i, points), lift);
  }

  lemma {:induction false} WindowsOnSize(d: Direction, i: nat, windows: set<Window>)
    ensures |WindowsOn(d, i, windows)| == |windows|
  {
    var lift := (w: Window) => GridWindow(d, i, w);
    forall q | q in WindowsOn(d, i, windows) ensures exists w :: w in windows && lift(w) == q {
      assert q.w in windows && lift(q.w) == q;
    }
    SameSize(windows, WindowsOn(d, i, windows), lift);
  }

  /** The sizes of the sets for the first lines. */
  ghost function PointCount(g: Grid, d: Direction, n: nat): nat
    requires Square(g, |g|) && n <= |g|
  {
    |PointsUpTo(g, d, n)|
  }

  ghost function WindowCount(g: Grid, d: Direction, n: nat): nat
    requires Square(g, |g|) && n <= |g|
  {
    |WindowsUpTo(g, d, n)|
  }

  lemma {:induction false} PointsStep(g: Grid, d: Direction, n: nat)
    requires Square(g, |g|) && n < |g|
    ensures PointCount(g, d, n + 1) == PointCount(g, d, n) + |RunPoints(Line(g, d, n))|
  {
    hide RunPoints, Line, PointsOn;
    var before, more := PointsUpTo(g, d, n), PointsOn(d, n, RunPoints(Line(g, d, n)));
    PointsOnSize(d, n, RunPoints(Line(g, d, n)));
    assert before !! more;
    assert PointsUpTo(g, d, n + 1) == before + more;
  }

  lemma {:induction false} WindowsStep(g: Grid, d: Direction, n: nat)
    requires Square(g, |g|) && n < |g|
    ensures WindowCount(g, d, n + 1) == WindowCount(g, d, n) + |Windows(Line(g, d, n))|
  {
    hide Windows, Line, WindowsOn;
    var before, more := WindowsUpTo(g, d, n), WindowsOn(d, n, Windows(Line(g, d, n)));
    WindowsOnSize(d, n, Windows(Line(g, d, n)));
    assert before !! more;
    assert WindowsUpTo(g, d, n + 1) == before + more;
  }

  lemma {:induction false} LinesMean(g: Grid, d: Direction, n: nat)
    requires Square(g, |g|) && n <= |g|
    ensures LinesPenalty(g, d, n) == PointCount(g, d, n) + 40 * WindowCount(g, d, n)
  {
    hide LinePenalty, RunPoints, Windows, Line, PointCount, WindowCount;
    if n == 0 {
      NoLines(g, d);
    } else {
      LinesMean(g, d, n - 1);
      PointsStep(g, d, n - 1);
      WindowsStep(g, d, n - 1);
      LinePenaltyMeans(Line(g, d, n - 1));
    }
  }

  lemma {:induction false} NoLines(g: Grid, d: Direction)
    requires Square(g, |g|)
    ensures PointCount(g, d, 0) == 0 && WindowCount(g, d, 0) == 0
  {
  }

  lemma {:induction false} RowsAreLines(g: Grid, n: nat)
    requires Square(g, |g|) && n <= |g|
    ensures RowsPenalty(g, n) == LinesPenalty(g, Horizontal, n)
  {
    hide LinePenalty;
    if n != 0 {
      RowsAreLines(g, n - 1);
      assert g[n - 1] == Line(g, Horizontal, n - 1);
    }
  }

  lemma {:induction false} ColumnsAreLines(g: Grid, n: nat)
    requires Square(g, |g|) && n <= |g|
    ensures ColumnsPenalty(g, n) == LinesPenalty(g, Vertical, n)
  {
    hide LinePenalty;
    if n != 0 {
      ColumnsAreLines(g, n - 1);
      assert Column(g, n - 1) == Line(g, Vertical, n - 1);
    }
  }

  /** The smallest k for which the share of black modules is within 5 (k + 1) percent of one half. */
  ghost predicate IsLeastImbalance(g: Grid, k: nat)
    requires Square(g, |g|)
  {
    var black, total := |set x, y | 0 <= x < |g| && 0 <= y < |g| && At(g, Pos(x, y)) :: Pos(x, y)|, |g| * |g|;
    && (45 - 5 * k) * total <= 100 * black <= (55 + 5 * k) * total
    && forall j :: 0 <= j < k ==> !Balanced(black, total, j)
  }

  lemma {:induction false} LeastIsImbalance(g: Grid, k: nat)
    requires Square(g, |g|) && |g| % 2 == 1 && IsLeastImbalance(g, k)
    ensures Imbalance(|BlackSet(g)|, |g| * |g|) == k
  {
    hide Imbalance;
    var black, total := |BlackSet(g)|, |g| * |g|;
    assert BlackSet(g) == set x, y | 0 <= x < |g| && 0 <= y < |g| && At(g, Pos(x, y)) :: Pos(x, y);
    OddSquare(|g|);
    ImbalanceIsLeast(black, total);
    assert Balanced(black, total, k);
  }

  lemma OddSquare(n: nat)
    requires n % 2 == 1
    ensures n * n % 2 == 1 && n * n > 0
  {
    var m := n / 2;
    assert n * n == 2 * (2 * m * m + 2 * m) + 1;
  }

  /**
   The score of a grid: a point for every run point, L - 2 for each maximal run of L >= 5 modules in a row or
   column; 40 for every finder-like window in a row or column; 3 for every 2x2 block of one colour; and 10 for
   every step of five percent that the share of black modules lies from one half.
   */
  lemma {:induction false} ScoreMeans(g: Grid, k: nat)
    requires Square(g, |g|) && |g| % 2 == 1 && IsLeastImbalance(g, k)
    ensures Score(g) == |GridPoints(g)| + 40 * |GridWindows(g)| + 3 * |BlockSet(g)| + 10 * k
  {
    hide RowsPenalty, ColumnsPenalty, LinesPenalty, BlockSet, BlackSet, Imbalance, IsLeastImbalance,
      RunPoints, Windows, Line;
    RowsAreLines(g, |g|);
    ColumnsAreLines(g, |g|);
    LinesMean(g, Horizontal, |g|);
    LinesMean(g, Vertical, |g|);
    LeastIsImbalance(g, k);
    assert PointsUpTo(g, Horizontal, |g|) !! PointsUpTo(g, Vertical, |g|);
    assert WindowsUpTo(g, Horizontal, |g|) !! WindowsUpTo(g, Vertical, |g|);
  }

  // ---------- rows and columns count the same ----------

  ghost predicate IsTransposed(g: Grid, h: Grid) {
    && Square(g, |g|) && Square(h, |g|)
    && forall x, y :: 0 <= x < |g| && 0 <= y < |g| ==> At(h, Pos(y, x)) == At(g, Pos(x, y))
  }

  function Other(d: Direction): Direction {
    if d == Horizontal then Vertical else Horizontal
  }

  lemma {:induction false} LinesSwap(g: Grid, h: Grid, d: Direction, i: nat)
    requires IsTransposed(g, h) && i < |g|
    ensures Line(h, d, i) == Line(g, Other(d), i)
  {
  }

  lemma {:induction false} LinesPenaltySwaps(g: Grid, h: Grid, d: Direction, n: nat)
    requires IsTransposed(g, h) && n <= |g|
    ensures LinesPenalty(h, d, n) == LinesPenalty(g, Other(d), n)
  {
    hide LinePenalty, Line, IsTransposed, Other;
    if n != 0 {
      TransposedSizes(g, h);
      LinesPenaltySwaps(g, h, d, n - 1);
      LinesSwap(g, h, d, n - 1);
    }
  }

  lemma {:induction false} TransposedSizes(g: Grid, h: Grid)
    requires IsTransposed(g, h)
    ensures Square(g, |g|) && Square(h, |h|) && |g| == |h|
  {
  }

  lemma {:induction false} BlocksSwap(g: Grid, h: Grid)
    requires IsTransposed(g, h) && |g| >= 1
    ensures |BlockSet(h)| == |BlockSet(g)|
  {
    var swap := (p: Pos) => Pos(p.y, p.x);
    forall p | Inside(p, |g| - 1) ensures IsBlock(h, Pos(p.y, p.x)) <==> IsBlock(g, p) {
      var x, y := p.x, p.y;
      assert At(h, Pos(y, x)) == At(g, Pos(x, y)) && At(h, Pos(y + 1, x)) == At(g, Pos(x, y + 1));
      assert At(h, Pos(y, x + 1)) == At(g, Pos(x + 1, y)) && At(h, Pos(y + 1, x + 1)) == At(g, Pos(x + 1, y + 1));
    }
    forall p | p in BlockSet(h) ensures swap(p) in BlockSet(g) {
      assert Inside(swap(p), |g| - 1) && Pos(swap(p).y, swap(p).x) == p;
    }
    forall q | q in BlockSet(g) ensures exists p :: p in BlockSet(h) && swap(p) == q {
      assert swap(q) in BlockSet(h) && swap(swap(q)) == q;
    }
    SameSize(BlockSet(h), BlockSet(g), swap);
  }

  lemma {:induction false} BlackSwaps(g: Grid, h: Grid)
    requires IsTransposed(g, h)
    ensures |BlackSet(h)| == |BlackSet(g)|
  {
    var swap := (p: Pos) => Pos(p.y, p.x);
    forall p | p in BlackSet(h) ensures swap(p) in BlackSet(g) {
      assert At(h, Pos(p.x, p.y)) == At(g, Pos(p.y, p.x));
    }
    forall q | q in BlackSet(g) ensures exists p :: p in BlackSet(h) && swap(p) == q {
      assert At(h, Pos(q.y, q.x)) == At(g, Pos(q.x, q.y));
      assert swap(q) in BlackSet(h) && swap(swap(q)) == q;
    }
    SameSize(BlackSet(h), BlackSet(g), swap);
  }

  /** Exchanging rows and columns leaves the score as it is. */
  lemma {:induction false} ScoreSwaps(g: Grid, h: Grid)
    requires IsTransposed(g, h) && |g| >= 1
    ensures Square(h, |h|) && |h| >= 1 && Score(h) == Score(g)
  {
    hide RowsPenalty, ColumnsPenalty, LinesPenalty, BlockSet, BlackSet, Imbalance, IsTransposed;
    TransposedSizes(g, h);
    RowsAreLines(g, |g|); ColumnsAreLines(g, |g|);
    RowsAreLines(h, |h|); ColumnsAreLines(h, |h|);
    LinesPenaltySwaps(g, h, Horizontal, |g|);
    LinesPenaltySwaps(g, h, Vertical, |g|);
    BlocksSwap(g, h);
    BlackSwaps(g, h);
  }
}
