/** The penalty score of a grid, said of the modules of the grid. */
module PenaltyMeaning {
  import opened FiniteSets
  import opened Penalty

  // ---------- runs of a line ----------

  /** The `n` modules from `a` on have one colour, and the modules on both sides have the other. */
  ghost predicate IsRun(line: seq<bool>, a: nat, n: nat) {
    && n >= 1 && a + n <= |line|
    && (forall j :: a <= j < a + n ==> line[j] == line[a])
    && (a > 0 ==> line[a - 1] != line[a])
    && (a + n < |line| ==> line[a + n] != line[a])
  }

  /** Where run `i` starts. */
  function Start(r: seq<nat>, i: nat): nat
    requires i <= |r|
  {
    if i == 0 then 0 else Start(r, i - 1) + r[i - 1]
  }

  lemma {:induction false} StartOfPrefix(r: seq<nat>, n: nat, i: nat)
    requires i <= n <= |r|
    ensures Start(r[..n], i) == Start(r, i)
  {
    if i != 0 {
      StartOfPrefix(r, n, i - 1);
    }
  }

  lemma {:induction false} StartsGrow(r: seq<nat>, i: nat, j: nat)
    requires Maximal(r) && i <= j <= |r|
    ensures Start(r, i) <= Start(r, j)
    ensures 1 <= i < j ==> Start(r, i) < Start(r, j)
  {
    if i < j {
      StartsGrow(r, i, j - 1);
    }
  }

  /** The modules of run `i` have its colour. */
  lemma {:induction false} SpellAt(r: seq<nat>, i: nat, p: nat)
    requires i < |r| && Start(r, i) <= p < Start(r, i) + r[i]
    ensures |Spell(r)| == Start(r, |r|) && p < |Spell(r)| && Spell(r)[p] == Black(i)
  {
    var n := |r| - 1;
    SpellLength(r);
    SpellLength(r[..n]);
    StartOfPrefix(r, n, n);
    if i < n {
      StartOfPrefix(r, n, i);
      SpellAt(r[..n], i, p);
    }
  }

  lemma {:induction false} SpellLength(r: seq<nat>)
    ensures |Spell(r)| == Start(r, |r|)
  {
    if r != [] {
      SpellLength(r[..|r| - 1]);
      StartOfPrefix(r, |r| - 1, |r| - 1);
    }
  }

  /** Every module is in some run. */
  lemma {:induction false} RunOf(r: seq<nat>, n: nat, p: nat) returns (i: nat)
    requires n <= |r| && p < Start(r, n)
    ensures i < n && Start(r, i) <= p < Start(r, i) + r[i]
  {
    if p >= Start(r, n - 1) {
      i := n - 1;
    } else {
      i := RunOf(r, n - 1, p);
    }
  }

  /** A line given by its runs. */
  ghost predicate Spelled(r: seq<nat>, line: seq<bool>) {
    |r| >= 1 && Maximal(r) && Spell(r) == line
  }

  lemma {:induction false} PixelsOfRun(r: seq<nat>, line: seq<bool>, i: nat)
    requires Spelled(r, line) && i < |r|
    ensures |line| == Start(r, |r|) && Start(r, i) + r[i] <= |line|
    ensures forall p :: Start(r, i) <= p < Start(r, i) + r[i] ==> line[p] == Black(i)
    ensures Start(r, i) > 0 ==> i > 0 && line[Start(r, i) - 1] == Black(i - 1)
    ensures i + 1 < |r| ==> Start(r, i) + r[i] < |line| && line[Start(r, i) + r[i]] == Black(i + 1)
    ensures i + 1 == |r| ==> Start(r, i) + r[i] == |line|
  {
    hide Spell, Black;
    SpellLength(r);
    StartsGrow(r, i + 1, |r|);
    forall p | Start(r, i) <= p < Start(r, i) + r[i] ensures line[p] == Black(i) {
      SpellAt(r, i, p);
    }
    if Start(r, i) > 0 {
      SpellAt(r, i - 1, Start(r, i) - 1);
    }
    if i + 1 < |r| {
      SpellAt(r, i + 1, Start(r, i) + r[i]);
    }
  }

  /** Every nonempty run of the list is a run of the line. */
  lemma {:induction false} ListedRun(r: seq<nat>, line: seq<bool>, i: nat)
    requires Spelled(r, line) && i < |r| && r[i] >= 1
    ensures IsRun(line, Start(r, i), r[i])
  {
    hide Spelled;
    PixelsOfRun(r, line, i);
  }

  /** Every run of the line is on the list. */
  lemma {:induction false} RunIsListed(r: seq<nat>, line: seq<bool>, a: nat, n: nat) returns (i: nat)
    requires Spelled(r, line) && IsRun(line, a, n)
    ensures i < |r| && a == Start(r, i) && n == r[i]
  {
    hide Spell, Maximal;
    PixelsOfRun(r, line, 0);
    i := RunOf(r, |r|, a);
    PixelsOfRun(r, line, i);
    assert line[a] == Black(i);
    assert a == Start(r, i);
  }

  // ---------- run points of a line ----------

  /** One of the points that a run brings: its place, its length, and which point. */
  datatype RunPoint = RunPoint(a: nat, n: nat, k: nat)

  /** Runs of five or more modules bring two points less than they have modules. */
  ghost function RunPoints(line: seq<bool>): (s: set<RunPoint>)
    ensures forall p :: p in s <==> IsRun(line, p.a, p.n) && p.n >= 5 && p.k < p.n - 2
  {
    set a: nat, n: nat, k: nat |
      a < |line| && n <= |line| && k < |line| && IsRun(line, a, n) && n >= 5 && k < n - 2 :: RunPoint(a, n, k)
  }

  ghost function ListedPoints(r: seq<nat>, m: nat): (s: set<RunPoint>)
    requires m <= |r|
  {
    if m == 0 then {}
    else ListedPoints(r, m - 1) + OnePoints(Start(r, m - 1), r[m - 1])
  }

  ghost predicate IsListed(r: seq<nat>, i: nat, p: RunPoint)
    requires i < |r|
  {
    p.a == Start(r, i) && p.n == r[i] && p.n >= 5 && p.k < p.n - 2
  }

  lemma {:induction false} ListedPoint(r: seq<nat>, m: nat, p: RunPoint)
    requires m <= |r|
    ensures p in ListedPoints(r, m) <==> exists i :: 0 <= i < m && IsListed(r, i, p)
  {
    if m != 0 {
      ListedPoint(r, m - 1, p);
      assert p in OnePoints(Start(r, m - 1), r[m - 1]) <==> IsListed(r, m - 1, p);
    }
  }

  ghost function OnePoints(a: nat, n: nat): (s: set<RunPoint>)
    ensures forall p :: p in s <==> p.a == a && p.n == n && n >= 5 && p.k < n - 2
  {
    set k: nat | n >= 5 && k < n - 2 :: RunPoint(a, n, k)
  }

  lemma {:induction false} OnePointsSize(a: nat, n: nat)
    ensures |OnePoints(a, n)| == RunScore(n)
  {
    if n < 5 {
      assert OnePoints(a, n) == {};
    } else {
      Numbered(a, n, n - 2);
      assert OnePoints(a, n) == FirstPoints(a, n, n - 2);
    }
  }

  ghost function FirstPoints(a: nat, n: nat, m: nat): (s: set<RunPoint>)
    ensures forall p :: p in s <==> p.a == a && p.n == n && p.k < m
  {
    set k: nat | k < m :: RunPoint(a, n, k)
  }

  lemma {:induction false} Numbered(a: nat, n: nat, m: nat)
    ensures |FirstPoints(a, n, m)| == m
  {
    if m == 0 {
      assert FirstPoints(a, n, 0) == {};
    } else {
      Numbered(a, n, m - 1);
      assert FirstPoints(a, n, m) == FirstPoints(a, n, m - 1) + {RunPoint(a, n, m - 1)};
    }
  }

  lemma {:induction false} PointsApart(r: seq<nat>, m: nat, p: RunPoint)
    requires m < |r| && Maximal(r) && p in ListedPoints(r, m)
    ensures p.a < Start(r, m)
  {
    hide ListedPoints;
    ListedPoint(r, m, p);
    var i :| 0 <= i < m && IsListed(r, i, p);
    StartsGrow(r, i + 1, m);
  }

  lemma {:induction false} ListedPointsSize(r: seq<nat>, m: nat)
    requires m <= |r| && Maximal(r)
    ensures |ListedPoints(r, m)| == RunPenalty(r[..m])
  {
    hide OnePoints, Start;
    if m != 0 {
      var k := m - 1;
      ListedPointsSize(r, k);
      assert r[..m][..k] == r[..k];
      var before, more := ListedPoints(r, k), OnePoints(Start(r, k), r[k]);
      OnePointsSize(Start(r, k), r[k]);
      forall p | p in before ensures p !in more {
        PointsApart(r, k, p);
      }
      assert before !! more && |before + more| == |before| + |more|;
    }
  }

  /** The run penalty of a line is the number of its run points. */
  lemma {:induction false} RunPenaltyMeans(line: seq<bool>)
    ensures RunPenalty(Runs(line)) == |RunPoints(line)|
  {
    hide Runs, RunPenalty, RunPoints, ListedPoints, IsRun, Start;
    var r := Runs(line);
    RunsSpell(line);
    ListedPointsSize(r, |r|);
    assert r[..|r|] == r;
    forall p ensures p in ListedPoints(r, |r|) <==> p in RunPoints(line) {
      ListedPoint(r, |r|, p);
      if p in ListedPoints(r, |r|) {
        var i :| 0 <= i < |r| && IsListed(r, i, p);
        ListedRun(r, line, i);
      }
      if p in RunPoints(line) {
        var i := RunIsListed(r, line, p.a, p.n);
        assert IsListed(r, i, p);
      }
    }
    assert ListedPoints(r, |r|) == RunPoints(line);
  }

  // ---------- finder-like windows of a line ----------

  /** Whether a module is black; beyond the line everything is white. */
  predicate Dark(line: seq<bool>, p: int) {
    0 <= p < |line| && line[p]
  }

  ghost predicate AllAre(line: seq<bool>, from: int, to: int, colour: bool) {
    forall p :: from <= p < to ==> Dark(line, p) == colour
  }

  /** A place, a unit, and on which side the wide white margin is. */
  datatype Window = Window(a: nat, n: nat, wideAfter: bool) {
    function Before(): int {
      if wideAfter then n else 4 * n
    }

    function After(): int {
      if wideAfter then 4 * n else n
    }
  }

  /** Black, white, black, white, black in the ratio 1:1:3:1:1, with white margins of one and of four units. */
  ghost predicate IsWindow(line: seq<bool>, w: Window) {
    var a, n := w.a, w.n;
    && n >= 1 && a + 7 * n <= |line|
    && AllAre(line, a - w.Before(), a, false)
    && AllAre(line, a, a + n, true)
    && AllAre(line, a + n, a + 2 * n, false)
    && AllAre(line, a + 2 * n, a + 5 * n, true)
    && AllAre(line, a + 5 * n, a + 6 * n, false)
    && AllAre(line, a + 6 * n, a + 7 * n, true)
    && AllAre(line, a + 7 * n, a + 7 * n + w.After(), false)
  }

  ghost function Windows(line: seq<bool>): (s: set<Window>)
    ensures forall w :: w in s <==> IsWindow(line, w)
  {
    set a: nat, n: nat, b: bool | a < |line| && n <= |line| && IsWindow(line, Window(a, n, b)) :: Window(a, n, b)
  }

  lemma {:induction false} BorderedAt(r: seq<nat>, size: nat)
    requires |r| >= 1
    ensures var c := Bordered(r, size);
            && (if Black(|r| - 1) then |c| == |r| + 1 else |c| == |r|)
            && (forall j :: 1 <= j < |c| - 1 ==> j < |r| && c[j] == r[j])
            && (|c| > 1 ==> c[0] == r[0] + size)
            && c[|c| - 1] >= size && (|c| > 1 && |c| == |r| ==> c[|c| - 1] == r[|r| - 1] + size)
  {
  }

  /** All modules of run `i` of the list have its colour. */
  lemma {:induction false} RunIsAll(r: seq<nat>, line: seq<bool>, i: nat)
    requires Spelled(r, line) && i < |r|
    ensures AllAre(line, Start(r, i), Start(r, i) + r[i], Black(i)) && Start(r, i) + r[i] <= |line|
    ensures Start(r, i + 1) == Start(r, i) + r[i]
  {
    hide Spelled;
    PixelsOfRun(r, line, i);
  }

  /** The window that a finding in the list of runs stands for. */
  function WindowOf(r: seq<nat>, f: Finding): Window
    requires 6 <= f.t <= |r|
  {
    Window(Start(r, f.t - 5), r[f.t - 1], f.wideAfter)
  }

  lemma {:induction false} FindingIsWindow(r: seq<nat>, line: seq<bool>, f: Finding)
    requires Spelled(r, line) && IsFinding(Bordered(r, |line|), f)
    ensures 6 <= f.t <= |r| && IsWindow(line, WindowOf(r, f))
  {
    hide Spelled, Spell, Runs, AllAre, Bordered;
    SpelledSome(r, line);
    var t := f.t;
    BorderedAt(r, |line|);
    var w := WindowOf(r, f);
    CoreIsAll(r, line, t - 5, w.n);
    WhiteBefore(r, line, t - 5, w.Before());
    WhiteAfter(r, line, t, w.After());
  }

  /** Five runs in the ratio 1:1:3:1:1 that start black. */
  lemma {:induction false} CoreIsAll(r: seq<nat>, line: seq<bool>, i: nat, n: nat)
    requires Spelled(r, line) && i + 5 <= |r| && Black(i)
    requires r[i] == n && r[i + 1] == n && r[i + 2] == 3 * n && r[i + 3] == n && r[i + 4] == n
    ensures Start(r, i + 5) == Start(r, i) + 7 * n <= |line|
    ensures var a := Start(r, i);
            && AllAre(line, a, a + n, true)
            && AllAre(line, a + n, a + 2 * n, false)
            && AllAre(line, a + 2 * n, a + 5 * n, true)
            && AllAre(line, a + 5 * n, a + 6 * n, false)
            && AllAre(line, a + 6 * n, a + 7 * n, true)
  {
    hide Spelled, AllAre;
    var a := Start(r, i);
    RunIsAll(r, line, i);
    assert Start(r, i + 1) == a + n;
    RunIsAll(r, line, i + 1);
    assert Start(r, i + 2) == a + 2 * n;
    RunIsAll(r, line, i + 2);
    assert Start(r, i + 3) == a + 5 * n;
    RunIsAll(r, line, i + 3);
    assert Start(r, i + 4) == a + 6 * n;
    RunIsAll(r, line, i + 4);
  }

  lemma {:induction false} SpelledSome(r: seq<nat>, line: seq<bool>)
    requires Spelled(r, line)
    ensures |r| >= 1 && Maximal(r)
  {
  }

  /** The white margin before a black run, as far as the run before it or the edge allows. */
  lemma {:induction false} WhiteBefore(r: seq<nat>, line: seq<bool>, i: nat, w: int)
    requires Spelled(r, line) && i < |r| && Black(i) && w >= 1
    ensures AllAre(line, Start(r, i) - w, Start(r, i), false) <==> i == 1 || r[i - 1] >= w
  {
    hide Spelled;
    var a := Start(r, i);
    PixelsOfRun(r, line, i - 1);
    if i > 1 {
      PixelsOfRun(r, line, i - 2);
      var p := Start(r, i - 1) - 1;
      SpelledSome(r, line);
      assert Dark(line, p);
      assert p == a - r[i - 1] - 1;
    }
  }

  /** The white margin after a black run. */
  lemma {:induction false} WhiteAfter(r: seq<nat>, line: seq<bool>, t: nat, w: int)
    requires Spelled(r, line) && 1 <= t <= |r| && Black(t - 1) && w >= 1
    ensures AllAre(line, Start(r, t), Start(r, t) + w, false) <==> t == |r| || t == |r| - 1 || r[t] >= w
  {
    hide Spelled;
    PixelsOfRun(r, line, t - 1);
    if t < |r| {
      PixelsOfRun(r, line, t);
      if t + 1 < |r| {
        PixelsOfRun(r, line, t + 1);
        var p := Start(r, t) + r[t];
        assert Dark(line, p);
      }
    }
  }

  /** A stretch between the other colour on both sides is a run of the list. */
  lemma {:induction false} StretchIsRun(r: seq<nat>, line: seq<bool>, i: nat, n: nat, colour: bool)
    requires Spelled(r, line) && 0 < i <= |r| && n >= 1 && Start(r, i) + n <= |line|
    requires Start(r, i) > 0 ==> line[Start(r, i) - 1] == !colour
    requires AllAre(line, Start(r, i), Start(r, i) + n, colour)
    requires Start(r, i) + n < |line| ==> line[Start(r, i) + n] == !colour
    ensures i < |r| && r[i] == n
  {
    hide Spelled, Spell;
    SpelledSome(r, line);
    var a := Start(r, i);
    assert Dark(line, a) == colour;
    forall j | a <= j < a + n ensures line[j] == line[a] {
      assert Dark(line, j) == colour;
    }
    assert IsRun(line, a, n);
    var k := RunIsListed(r, line, a, n);
    if k < i {
      StartsGrow(r, k + 1, i);
    } else if i < k {
      StartsGrow(r, i, k);
    }
  }

  /** The runs that a window consists of. */
  lemma {:induction false} WindowRuns(r: seq<nat>, line: seq<bool>, w: Window) returns (i: nat)
    requires Spelled(r, line) && IsWindow(line, w)
    ensures 1 <= i && i + 5 <= |r| && Black(i) && Start(r, i) == w.a
    ensures r[i] == w.n && r[i + 1] == w.n && r[i + 2] == 3 * w.n && r[i + 3] == w.n && r[i + 4] == w.n
    ensures Start(r, i + 5) == w.a + 7 * w.n
  {
    hide Spelled, Spell, Maximal;
    var a, n := w.a, w.n;
    i := FirstOfWindow(r, line, w);
    Edges(line, w);
    assert Start(r, i + 1) == a + n;
    StretchIsRun(r, line, i + 1, n, false);
    assert Start(r, i + 2) == a + 2 * n;
    StretchIsRun(r, line, i + 2, 3 * n, true);
    assert Start(r, i + 3) == a + 5 * n;
    StretchIsRun(r, line, i + 3, n, false);
    assert Start(r, i + 4) == a + 6 * n;
    StretchIsRun(r, line, i + 4, n, true);
  }

  lemma {:induction false} Edges(line: seq<bool>, w: Window)
    requires IsWindow(line, w)
    ensures w.a + 7 * w.n <= |line| && w.n >= 1
    ensures w.a > 0 ==> !line[w.a - 1]
    ensures line[w.a] && line[w.a + w.n - 1] && !line[w.a + w.n] && !line[w.a + 2 * w.n - 1] && line[w.a + 2 * w.n]
    ensures line[w.a + 5 * w.n - 1] && !line[w.a + 5 * w.n] && !line[w.a + 6 * w.n - 1] && line[w.a + 6 * w.n]
    ensures w.a + 7 * w.n < |line| ==> !line[w.a + 7 * w.n]
  {
    var a: int, n: int := w.a, w.n;
    assert !Dark(line, a - 1) && Dark(line, a) && Dark(line, a + n - 1) && !Dark(line, a + n);
    assert !Dark(line, a + 2 * n - 1) && Dark(line, a + 2 * n) && Dark(line, a + 5 * n - 1) && !Dark(line, a + 5 * n);
    assert !Dark(line, a + 6 * n - 1) && Dark(line, a + 6 * n) && !Dark(line, a + 7 * n);
  }

  lemma {:induction false} FirstOfWindow(r: seq<nat>, line: seq<bool>, w: Window) returns (i: nat)
    requires Spelled(r, line) && IsWindow(line, w)
    ensures 1 <= i < |r| && Black(i) && Start(r, i) == w.a && r[i] == w.n
  {
    hide Spelled, Spell, Maximal;
    Edges(line, w);
    var a, n := w.a, w.n;
    forall j | a <= j < a + n ensures line[j] == line[a] {
      assert Dark(line, j);
    }
    assert IsRun(line, a, n);
    i := RunIsListed(r, line, a, n);
    PixelsOfRun(r, line, i);
  }

  lemma {:induction false} WindowIsFinding(r: seq<nat>, line: seq<bool>, w: Window) returns (f: Finding)
    requires Spelled(r, line) && IsWindow(line, w)
    ensures |r| >= 1 && IsFinding(Bordered(r, |line|), f) && 6 <= f.t <= |r| && WindowOf(r, f) == w
  {
    hide Spelled, Spell, Bordered, AllAre, Start;
    SpelledSome(r, line);
    var c := Bordered(r, |line|);
    BorderedAt(r, |line|);
    var i := WindowRuns(r, line, w);
    f := Finding(i + 5, w.wideAfter);
    WhiteBefore(r, line, i, w.Before());
    WhiteAfter(r, line, i + 5, w.After());
    assert c[i - 1] >= w.Before();
    assert c[i + 5] >= w.After();
  }

  lemma {:induction false} WindowsApart(r: seq<nat>, f: Finding, h: Finding)
    requires Maximal(r) && 6 <= f.t <= |r| && 6 <= h.t <= |r| && WindowOf(r, f) == WindowOf(r, h)
    ensures f == h
  {
    if f.t < h.t {
      StartsGrow(r, f.t - 5, h.t - 5);
    } else if h.t < f.t {
      StartsGrow(r, h.t - 5, f.t - 5);
    }
  }

  /** The finder count of a line is the number of its finder-like windows. */
  lemma {:induction false} FinderCountMeans(line: seq<bool>)
    ensures FinderCount(Bordered(Runs(line), |line|)) == |Windows(line)|
  {
    hide Runs, FinderCount, Findings, Windows, IsWindow, IsFinding, Bordered, WindowOf;
    var r := Runs(line);
    RunsSpell(line);
    var c := Bordered(r, |line|);
    FinderCountIsFindings(c);
    FoundMembers(c);
    var image := (f: Finding) => if 6 <= f.t <= |r| then WindowOf(r, f) else Window(0, 0, true);
    forall f | f in Findings(c) ensures 6 <= f.t <= |r| && image(f) in Windows(line) {
      FindingIsWindow(r, line, f);
    }
    forall f, h | f in Findings(c) && h in Findings(c) && image(f) == image(h) ensures f == h {
      WindowsApart(r, f, h);
    }
    forall w | w in Windows(line) ensures exists f :: f in Findings(c) && image(f) == w {
      var f := WindowIsFinding(r, line, w);
      assert f in Findings(c) && image(f) == w;
    }
    SameSize(Findings(c), Windows(line), image);
  }

  lemma {:induction false} FoundMembers(c: seq<nat>)
    ensures forall f :: f in Findings(c) <==> IsFinding(c, f)
  {
  }

  /** The penalty of a line in terms of its modules. */
  lemma {:induction false} LinePenaltyMeans(line: seq<bool>)
    ensures LinePenalty(line) == |RunPoints(line)| + 40 * |Windows(line)|
  {
    hide RunPenalty, FinderCount, RunPoints, Windows, Bordered;
    RunPenaltyMeans(line);
    FinderCountMeans(line);
  }
}
