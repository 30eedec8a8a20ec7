/**
 The penalty score that ranks masks.  Each part is defined by what it means (maximal runs,
 finder-like windows, 2x2 blocks, balance) and computed by the streaming loops of the encoder.
 */
module Penalty {
  import opened Grids
  import opened PosSets

  const PENALTY_N1 := 3
  const PENALTY_N2 := 3
  const PENALTY_N3 := 40
  const PENALTY_N4 := 10

  // ---------- runs ----------

  /** Whether run `i` of a line is black; runs alternate and the first is white. */
  predicate Black(i: int) {
    i % 2 == 1
  }

  /** The lengths of the runs of a line; only the first may be empty. */
  function Runs(line: seq<bool>): (r: seq<nat>)
    ensures |r| >= 1
  {
    if line == [] then [0]
    else
      var n := |line| - 1;
      var r := Runs(line[..n]);
      var last := |r| - 1;
      if line[n] == Black(last) then r[last := r[last] + 1] else r + [1]
  }

  function Repeat(b: bool, n: nat): (s: seq<bool>)
    ensures |s| == n
  {
    seq(n, _ => b)
  }

  /** The line that a list of alternating runs spells. */
  function Spell(r: seq<nat>): seq<bool> {
    if r == [] then [] else Spell(r[..|r| - 1]) + Repeat(Black(|r| - 1), r[|r| - 1])
  }

  ghost predicate Maximal(r: seq<nat>) {
    forall i :: 1 <= i < |r| ==> r[i] >= 1
  }

  lemma {:induction false} RunsSnoc(line: seq<bool>, b: bool)
    ensures var r, last := Runs(line), |Runs(line)| - 1;
            Runs(line + [b]) == if b == Black(last) then r[last := r[last] + 1] else r + [1]
  {
    var longer := line + [b];
    assert longer[..|line|] == line && longer[|line|] == b && longer != [];
  }

  lemma {:induction false} SpellLonger(r: seq<nat>)
    requires |r| >= 1
    ensures var last := |r| - 1;
            Spell(r[last := r[last] + 1]) == Spell(r) + [Black(last)]
  {
    var last := |r| - 1;
    assert r[last := r[last] + 1][..last] == r[..last];
    assert Repeat(Black(last), r[last] + 1) == Repeat(Black(last), r[last]) + [Black(last)];
  }

  lemma {:induction false} SpellNew(r: seq<nat>)
    ensures Spell(r + [1]) == Spell(r) + [Black(|r|)]
  {
    assert (r + [1])[..|r|] == r;
    assert Repeat(Black(|r|), 1) == [Black(|r|)];
  }

  lemma {:induction false} EmptyLine()
    ensures Runs([]) == [0] && Spell([0]) == []
  {
    assert [0][..0] == [];
  }

  /** The runs spell the line and are maximal. */
  lemma {:induction false} RunsSpell(line: seq<bool>)
    ensures Spell(Runs(line)) == line
    ensures Maximal(Runs(line))
  {
    hide Runs, Spell;
    EmptyLine();
    if line != [] {
      var n := |line| - 1;
      var front, b := line[..n], line[n];
      RunsSpell(front);
      assert line == front + [b];
      RunsSnoc(front, b);
      SpellLonger(Runs(front));
      SpellNew(Runs(front));
    }
  }

  /** No other alternating list with nonempty runs after the first spells the same line. */
  lemma {:induction false} RunsUnique(r: seq<nat>)
    requires |r| >= 1 && Maximal(r)
    ensures Runs(Spell(r)) == r
    decreases |r|, r[|r| - 1]
  {
    hide Runs, Spell;
    var last := |r| - 1;
    if r[last] > 1 || (last == 0 && r[0] > 0) {
      var r' := r[last := r[last] - 1];
      RunsUnique(r');
      SpellLonger(r');
      assert r'[last := r'[last] + 1] == r;
      RunsSnoc(Spell(r'), Black(last));
    } else if last > 0 {
      var r' := r[..last];
      RunsUnique(r');
      SpellNew(r');
      assert r == r' + [1];
      RunsSnoc(Spell(r'), Black(last));
    } else {
      assert r == [0];
      EmptyLine();
    }
  }

  function RunScore(n: nat): nat {
    if n >= 5 then n - 2 else 0
  }

  /** The sum of (L - 2) over the runs of length L >= 5. */
  function RunPenalty(r: seq<nat>): nat {
    if r == [] then 0 else RunPenalty(r[..|r| - 1]) + RunScore(r[|r| - 1])
  }

  // ---------- finder-like patterns ----------

  /** The seven latest runs, latest first, with zeros where there are fewer. */
  function History(c: seq<nat>): (h: seq<nat>)
    ensures |h| == 7
  {
    seq(7, k requires 0 <= k < 7 => if k < |c| then c[|c| - 1 - k] else 0)
  }

  /** Whether the middle five of seven runs are in the ratio 1:1:3:1:1. */
  predicate Core(h: seq<nat>)
    requires |h| == 7
  {
    var n := h[1];
    n > 0 && h[2] == n && h[3] == n * 3 && h[4] == n && h[5] == n
  }

  function Match(h: seq<nat>): nat
    requires |h| == 7
  {
    (if Core(h) && h[0] >= h[1] * 4 && h[6] >= h[1] then 1 else 0)
    + (if Core(h) && h[6] >= h[1] * 4 && h[0] >= h[1] then 1 else 0)
  }

  /** The finder-like patterns that end with a white run. */
  function FinderCount(c: seq<nat>): nat {
    if c == [] then 0
    else FinderCount(c[..|c| - 1]) + (if Black(|c| - 1) then 0 else Match(History(c)))
  }

  /** A finder-like pattern: the white run at `t`, dark-light runs 1:1:3:1:1 before it, and a wide
      white run on one side. */
  datatype Finding = Finding(t: nat, wideAfter: bool)

  predicate IsFinding(c: seq<nat>, f: Finding) {
    && 6 <= f.t < |c| && f.t % 2 == 0
    && var n := c[f.t - 1];
       && n > 0 && c[f.t - 2] == n && c[f.t - 3] == 3 * n && c[f.t - 4] == n && c[f.t - 5] == n
       && (if f.wideAfter then c[f.t] >= 4 * n && c[f.t - 6] >= n else c[f.t - 6] >= 4 * n && c[f.t] >= n)
  }

  ghost function Findings(c: seq<nat>): set<Finding> {
    set t: nat, w: bool | t < |c| && IsFinding(c, Finding(t, w)) :: Finding(t, w)
  }

  /** The streaming count is the number of finder-like patterns in the whole line. */
  lemma {:induction false} FinderCountIsFindings(c: seq<nat>)
    ensures FinderCount(c) == |Findings(c)|
  {
    if c == [] {
      assert Findings(c) == {};
    } else {
      var n := |c| - 1;
      var front := c[..n];
      FinderCountIsFindings(front);
      FindingsStep(c);
    }
  }

  /** The patterns that end at the last run. */
  function Ending(c: seq<nat>): set<Finding>
    requires c != []
  {
    var a, b := Finding(|c| - 1, true), Finding(|c| - 1, false);
    (if IsFinding(c, a) then {a} else {}) + (if IsFinding(c, b) then {b} else {})
  }

  lemma {:induction false} FindingsSplit(c: seq<nat>)
    requires c != []
    ensures Findings(c) == Findings(c[..|c| - 1]) + Ending(c) && Findings(c[..|c| - 1]) !! Ending(c)
  {
    hide IsFinding;
    var n := |c| - 1;
    forall f: Finding ensures f in Findings(c) <==> f in Findings(c[..n]) + Ending(c) {
      if f.t < n {
        FindingsBefore(c, f);
      } else if f.t == n {
        assert f == Finding(n, true) || f == Finding(n, false);
      }
    }
  }

  /** One more run adds the patterns that end with it. */
  lemma {:induction false} FindingsStep(c: seq<nat>)
    requires c != []
    ensures |Findings(c)| == |Findings(c[..|c| - 1])| + (if Black(|c| - 1) then 0 else Match(History(c)))
  {
    hide History, Core, IsFinding, Findings;
    FindingsSplit(c);
    FindingsAtEnd(c);
  }

  lemma {:induction false} FindingsBefore(c: seq<nat>, f: Finding)
    requires c != [] && f.t < |c| - 1
    ensures IsFinding(c, f) <==> IsFinding(c[..|c| - 1], f)
  {
  }

  /** The history after the last run tells which patterns end there. */
  lemma {:induction false} FindingsAtEnd(c: seq<nat>)
    requires c != []
    ensures var n, h := |c| - 1, History(c);
            && (IsFinding(c, Finding(n, true)) <==> !Black(n) && Core(h) && h[0] >= h[1] * 4 && h[6] >= h[1])
            && (IsFinding(c, Finding(n, false)) <==> !Black(n) && Core(h) && h[6] >= h[1] * 4 && h[0] >= h[1])
  {
  }

  /** The runs of a line with a white border of `size` modules on both sides. */
  function Bordered(r: seq<nat>, size: nat): seq<nat>
    requires |r| >= 1
  {
    var c := r[0 := r[0] + size];
    var last := |c| - 1;
    if Black(last) then c + [size] else c[last := c[last] + size]
  }

  /** The penalty of a row or a column. */
  function LinePenalty(line: seq<bool>): nat {
    var r := Runs(line);
    RunPenalty(r) + FinderCount(Bordered(r, |line|)) * PENALTY_N3
  }

  // ---------- the streaming loop ----------

  /** Shifts a run length into the history; the very first run gets the white border. */
  method AddHistory(currentRunLength: nat, runHistory: array<nat>, size: nat)
    requires runHistory.Length == 7
    modifies runHistory
    ensures runHistory[..] == [currentRunLength + (if old(runHistory[0]) == 0 then size else 0)] + old(runHistory[..6])
  {
    var len := currentRunLength;
    if runHistory[0] == 0 {
      len := len + size;
    }
    var i := 6;
    while i > 0
      invariant 0 <= i <= 6
      invariant forall k :: 0 <= k <= i ==> runHistory[k] == old(runHistory[k])
      invariant forall k :: i < k < 7 ==> runHistory[k] == old(runHistory[k - 1])
    {
      runHistory[i] := runHistory[i - 1];
      i := i - 1;
    }
    runHistory[0] := len;
  }

  /** Counts the patterns that end with the latest run; a longer middle run would be a logic error. */
  method CountPatterns(runHistory: array<nat>, size: nat, ghost c: seq<nat>) returns (count: nat)
    requires runHistory.Length == 7 && runHistory[1] <= size * 3
    ensures count == Match(runHistory[..])
    ensures c != [] && !Black(|c| - 1) && runHistory[..] == History(c) ==> count == |Ending(c)|
  {
    hide History, IsFinding;
    if c != [] {
      FindingsAtEnd(c);
    }
    var n := runHistory[1];
    var core := n > 0 && runHistory[2] == n && runHistory[3] == n * 3 && runHistory[4] == n && runHistory[5] == n;
    count := (if core && runHistory[0] >= n * 4 && runHistory[6] >= n then 1 else 0)
             + (if core && runHistory[6] >= n * 4 && runHistory[0] >= n then 1 else 0);
  }

  /** The finished runs of a line with the border added to the first of them. */
  function Finished(r: seq<nat>, size: nat): seq<nat>
    requires |r| >= 1
  {
    var c := r[..|r| - 1];
    if c == [] then [] else c[0 := c[0] + size]
  }

  lemma {:induction false} HistorySnoc(c: seq<nat>, v: nat)
    ensures History(c + [v]) == [v] + History(c)[..6]
  {
  }

  lemma {:induction false} FinderCountSnoc(c: seq<nat>, v: nat)
    ensures FinderCount(c + [v]) == FinderCount(c) + (if Black(|c|) then 0 else Match(History(c + [v])))
  {
    assert (c + [v])[..|c|] == c;
  }

  lemma {:induction false} RunPenaltySnoc(r: seq<nat>, v: nat)
    ensures RunPenalty(r + [v]) == RunPenalty(r) + RunScore(v)
  {
    assert (r + [v])[..|r|] == r;
  }

  /** No run is longer than its line. */
  lemma {:induction false} RunsBounded(line: seq<bool>)
    ensures forall i :: 0 <= i < |Runs(line)| ==> Runs(line)[i] <= |line|
  {
    if line != [] {
      RunsBounded(line[..|line| - 1]);
    }
  }

  /** Finishing the current run of `r` extends the finished runs by it, with the border if it is the first. */
  lemma {:induction false} FinishedSnoc(r: seq<nat>, v: nat, size: nat)
    requires |r| >= 1
    ensures |Finished(r, size)| == |r| - 1
    ensures Finished(r + [v], size) == Finished(r, size) + [r[|r| - 1] + (if |r| == 1 then size else 0)]
  {
    assert (r + [v])[..|r|] == r;
  }

  /** The history is empty exactly before the first run is finished. */
  lemma {:induction false} HistoryHead(r: seq<nat>, size: nat)
    requires |r| >= 1 && Maximal(r) && size > 0
    ensures History(Finished(r, size))[0] == 0 <==> |r| == 1
  {
  }

  /** One line of the penalty score, in one pass. */
  method ScoreLine(line: seq<bool>) returns (result: nat)
    requires |line| > 0
    ensures result == LinePenalty(line)
  {
    hide Runs, FinderCount, History, Match, RunPenalty, Ending;
    var size := |line|;
    var runColor, runX := false, 0;
    var runHistory := new nat[7](_ => 0);
    result := 0;
    ghost var r := [0];
    StartOfLine(line, size);
    assert runHistory[..] == History(Finished(r, size));
    for x := 0 to size
      invariant r == Runs(line[..x]) && |r| >= 1
      invariant runColor == Black(|r| - 1) && runX == r[|r| - 1]
      invariant runHistory[..] == History(Finished(r, size))
      invariant result == RunPenalty(r) + FinderCount(Finished(r, size)) * PENALTY_N3
    {
      RunsStep(line, x);
      RunsFacts(line, x, size);
      ghost var r0 := r;
      r := Runs(line[..x + 1]);
      if line[x] == runColor {
        SameRun(r0, size);
        runX := runX + 1;
        if runX == 5 {
          result := result + PENALTY_N1;
        } else if runX > 5 {
          result := result + 1;
        }
      } else {
        NewRun(r0, size);
        AddHistory(runX, runHistory, size);
        if !runColor {
          var n := CountPatterns(runHistory, size, Finished(r, size));
          result := result + n * PENALTY_N3;
        }
        runColor := line[x];
        runX := 1;
      }
    }
    assert line[..size] == line;
    RunsFacts(line, size, size);
    var n := TerminateAndCount(runColor, runX, runHistory, size, r);
    result := result + n * PENALTY_N3;
  }

  lemma {:induction false} StartOfLine(line: seq<bool>, size: nat)
    ensures Runs(line[..0]) == [0]
    ensures History(Finished([0], size)) == [0, 0, 0, 0, 0, 0, 0]
    ensures RunPenalty([0]) == 0 && FinderCount(Finished([0], size)) == 0
  {
    assert RunPenalty([]) == 0;
    assert [0][..0] == [];
  }

  lemma {:induction false} RunsStep(line: seq<bool>, x: nat)
    requires x < |line|
    ensures var r, last := Runs(line[..x]), |Runs(line[..x])| - 1;
            Runs(line[..x + 1]) == if line[x] == Black(last) then r[last := r[last] + 1] else r + [1]
  {
    assert line[..x + 1][..x] == line[..x];
  }

  lemma {:induction false} RunsFacts(line: seq<bool>, x: nat, size: nat)
    requires x <= |line| == size && size > 0
    ensures var r := Runs(line[..x]);
            && Maximal(r)
            && (forall i :: 0 <= i < |r| ==> r[i] <= size)
            && History(Finished(r, size))[0] <= size * 3
            && (History(Finished(r, size))[0] == 0 <==> |r| == 1)
  {
    hide Runs, History;
    RunsSpell(line[..x]);
    RunsBounded(line[..x]);
    HistoryHead(Runs(line[..x]), size);
    HistoryBounded(Runs(line[..x]), size);
  }

  /** Lengthening the current run leaves the finished runs alone. */
  lemma {:induction false} SameRun(r: seq<nat>, size: nat)
    requires |r| >= 1
    ensures var last := |r| - 1;
            var r' := r[last := r[last] + 1];
            && Finished(r', size) == Finished(r, size)
            && RunPenalty(r') == RunPenalty(r)
                 + (if r[last] + 1 == 5 then PENALTY_N1 else if r[last] + 1 > 5 then 1 else 0)
  {
    var last := |r| - 1;
    var r' := r[last := r[last] + 1];
    assert r'[..last] == r[..last];
    assert r == r[..last] + [r[last]] && r' == r[..last] + [r[last] + 1];
  }

  /** Starting a new run shifts the current one into the history. */
  lemma {:induction false} NewRun(r: seq<nat>, size: nat)
    requires |r| >= 1
    ensures var c, v := Finished(r, size), r[|r| - 1] + (if |r| == 1 then size else 0);
            && Finished(r + [1], size) == c + [v]
            && History(c + [v]) == [v] + History(c)[..6]
            && FinderCount(c + [v]) == FinderCount(c) + (if Black(|r| - 1) then 0 else Match(History(c + [v])))
            && RunPenalty(r + [1]) == RunPenalty(r)
  {
    hide History, FinderCount, Match, RunPenalty, Finished;
    var c, v := Finished(r, size), r[|r| - 1] + (if |r| == 1 then size else 0);
    FinishedSnoc(r, 1, size);
    HistorySnoc(c, v);
    FinderCountSnoc(c, v);
    RunPenaltySnoc(r, 1);
  }

  /** The run before the latest is never longer than the border check allows. */
  lemma {:induction false} HistoryBounded(r: seq<nat>, size: nat)
    requires |r| >= 1 && forall i :: 0 <= i < |r| ==> r[i] <= size
    ensures History(Finished(r, size))[0] <= size * 3
  {
  }

  /** Ends the line: finishes a black run, adds the white border and counts once more. */
  method TerminateAndCount(currentRunColor: bool, currentRunLength: nat, runHistory: array<nat>, size: nat, ghost r: seq<nat>)
    returns (count: nat)
    requires runHistory.Length == 7 && size > 0 && |r| >= 1
    requires currentRunColor == Black(|r| - 1) && currentRunLength == r[|r| - 1]
    requires Maximal(r) && forall i :: 0 <= i < |r| ==> r[i] <= size
    requires runHistory[..] == History(Finished(r, size))
    requires runHistory[0] <= size * 3
    requires runHistory[0] == 0 <==> |r| == 1
    modifies runHistory
    ensures FinderCount(Finished(r, size)) + count == FinderCount(Bordered(r, size))
  {
    hide FinderCount, History, Match, Ending;
    var len := currentRunLength;
    ghost var c := Finished(r, size);
    ghost var v := r[|r| - 1] + (if |r| == 1 then size else 0);
    NewRun(r, size);
    if currentRunColor {
      assert |r| > 1 && v == r[|r| - 1];
      AddHistory(len, runHistory, size);
      c := c + [v];
      len := 0;
      HistorySnoc(c, size);
      FinderCountSnoc(c, size);
      BorderAfterBlack(r, size);
      len := len + size;
      AddHistory(len, runHistory, size);
      count := CountPatterns(runHistory, size, c + [size]);
    } else {
      HistorySnoc(c, v + size);
      FinderCountSnoc(c, v + size);
      BorderAfterWhite(r, size);
      len := len + size;
      AddHistory(len, runHistory, size);
      count := CountPatterns(runHistory, size, c + [v + size]);
    }
  }

  lemma {:induction false} BorderAfterBlack(r: seq<nat>, size: nat)
    requires |r| >= 1 && Black(|r| - 1)
    ensures Bordered(r, size) == Finished(r, size) + [r[|r| - 1]] + [size]
  {
  }

  lemma {:induction false} BorderAfterWhite(r: seq<nat>, size: nat)
    requires |r| >= 1 && !Black(|r| - 1)
    ensures Bordered(r, size) == Finished(r, size) + [r[|r| - 1] + (if |r| == 1 then size else 0) + size]
  {
  }

  // ---------- the whole grid ----------

  function Column(g: Grid, x: nat): (line: seq<bool>)
    requires Square(g, |g|) && x < |g|
    ensures |line| == |g|
  {
    seq(|g|, y requires 0 <= y < |g| => g[y][x])
  }

  function RowsPenalty(g: Grid, n: nat): nat
    requires n <= |g|
  {
    if n == 0 then 0 else RowsPenalty(g, n - 1) + LinePenalty(g[n - 1])
  }

  function ColumnsPenalty(g: Grid, n: nat): nat
    requires Square(g, |g|) && n <= |g|
  {
    if n == 0 then 0 else ColumnsPenalty(g, n - 1) + LinePenalty(Column(g, n - 1))
  }

  /** The four modules with top left corner `p` have one colour. */
  predicate IsBlock(g: Grid, p: Pos)
    requires Square(g, |g|) && |g| >= 1 && Inside(p, |g| - 1)
  {
    var c := g[p.y][p.x];
    c == g[p.y][p.x + 1] && c == g[p.y + 1][p.x] && c == g[p.y + 1][p.x + 1]
  }

  ghost function BlockSet(g: Grid): (s: set<Pos>)
    requires Square(g, |g|) && |g| >= 1
    ensures forall p :: p in s <==> Inside(p, |g| - 1) && IsBlock(g, p)
  {
    set x, y | 0 <= x < |g| - 1 && 0 <= y < |g| - 1 && IsBlock(g, Pos(x, y)) :: Pos(x, y)
  }

  ghost function BlackSet(g: Grid): (s: set<Pos>)
    requires Square(g, |g|)
    ensures forall p :: p in s <==> Inside(p, |g|) && At(g, p)
  {
    set x, y | 0 <= x < |g| && 0 <= y < |g| && At(g, Pos(x, y)) :: Pos(x, y)
  }

  /** How many steps of five percent the share of black modules lies from one half. */
  function Imbalance(black: int, total: int): int
    requires total > 0
  {
    (Abs(black * 20 - total * 10) + total - 1) / total - 1
  }

  /** The share is within (45 - 5k)% and (55 + 5k)%. */
  predicate Balanced(black: int, total: int, k: int) {
    (45 - 5 * k) * total <= 100 * black <= (55 + 5 * k) * total
  }

  lemma {:induction false} CeilingFacts(d: nat, total: nat)
    requires total > 0
    ensures var q := (d + total - 1) / total;
            q >= 0 && (q - 1) * total < d <= q * total
  {
    var n := d + total - 1;
    var q := n / total;
    assert n == total * q + n % total;
    assert (q - 1) * total == total * q - total;
  }

  lemma {:induction false} BalancedMeans(black: int, total: int, k: int)
    requires total > 0
    ensures Balanced(black, total, k) <==> Abs(black * 20 - total * 10) <= (k + 1) * total
  {
    var m := k * total;
    assert (45 - 5 * k) * total == 45 * total - 5 * m;
    assert (55 + 5 * k) * total == 55 * total + 5 * m;
    assert (k + 1) * total == m + total;
  }

  /** `Imbalance` is the smallest such k, and not negative because an odd total has no exact half. */
  lemma {:induction false} ImbalanceIsLeast(black: int, total: int)
    requires total > 0 && total % 2 == 1
    ensures var k := Imbalance(black, total);
            k >= 0 && Balanced(black, total, k) && forall j :: 0 <= j < k ==> !Balanced(black, total, j)
  {
    hide Balanced;
    var d, k := Abs(black * 20 - total * 10), Imbalance(black, total);
    assert d >= 1;
    CeilingFacts(d, total);
    BalancedMeans(black, total, k);
    assert k >= 0;
    forall j | 0 <= j < k ensures !Balanced(black, total, j) {
      BalancedMeans(black, total, j);
      MultiplyOrder(j + 1, k, total);
    }
  }

  lemma {:induction false} MultiplyOrder(a: int, b: int, t: nat)
    requires a <= b
    ensures a * t <= b * t
  {
  }

  /** The penalty score of a grid. */
  ghost function Score(g: Grid): int
    requires Square(g, |g|) && |g| >= 1
  {
    RowsPenalty(g, |g|) + ColumnsPenalty(g, |g|)
    + PENALTY_N2 * |BlockSet(g)|
    + PENALTY_N4 * Imbalance(|BlackSet(g)|, |g| * |g|)
  }

  // ---------- how large the score can get ----------

  function Sum(r: seq<nat>): nat {
    if r == [] then 0 else Sum(r[..|r| - 1]) + r[|r| - 1]
  }

  lemma {:induction false} RunsTotal(line: seq<bool>)
    ensures Sum(Runs(line)) == |line| && |Runs(line)| <= |line| + 1
  {
    if line != [] {
      var n := |line| - 1;
      RunsTotal(line[..n]);
      var r := Runs(line[..n]);
      var last := |r| - 1;
      assert r[last := r[last] + 1][..last] == r[..last];
      assert (r + [1])[..|r|] == r;
    }
  }

  lemma {:induction false} RunPenaltyBound(r: seq<nat>)
    ensures RunPenalty(r) <= Sum(r)
  {
    if r != [] {
      RunPenaltyBound(r[..|r| - 1]);
    }
  }

  lemma {:induction false} FinderCountBound(c: seq<nat>)
    ensures FinderCount(c) <= 2 * |c|
  {
    hide History;
    if c != [] {
      FinderCountBound(c[..|c| - 1]);
    }
  }

  lemma {:induction false} LineBound(line: seq<bool>)
    ensures LinePenalty(line) <= 81 * |line| + 160
  {
    hide Runs, FinderCount, RunPenalty;
    var r := Runs(line);
    RunsTotal(line);
    RunPenaltyBound(r);
    FinderCountBound(Bordered(r, |line|));
  }

  lemma {:induction false} LinesBound(g: Grid, n: nat)
    requires Square(g, |g|) && n <= |g|
    ensures RowsPenalty(g, n) <= n * (81 * |g| + 160)
    ensures ColumnsPenalty(g, n) <= n * (81 * |g| + 160)
  {
    hide LinePenalty;
    if n != 0 {
      LinesBound(g, n - 1);
      LineBound(g[n - 1]);
      LineBound(Column(g, n - 1));
      assert n * (81 * |g| + 160) == (n - 1) * (81 * |g| + 160) + (81 * |g| + 160);
    }
  }

  const LONG_MAX := 0x7FFF_FFFF

  /** The score fits in a 32-bit `long`, whatever the grid. */
  lemma {:induction false} ScoreFits(g: Grid)
    requires Square(g, |g|) && 1 <= |g| <= 177
    ensures Score(g) < LONG_MAX
  {
    hide RowsPenalty, ColumnsPenalty, BlockSet, BlackSet;
    var n := |g|;
    LinesBound(g, n);
    SquareBound(BlockSet(g), n);
    SquareBound(BlackSet(g), n);
    ProductBound(n, 81 * n + 160, 177, 14497);
    ProductBound(n, n, 177, 177);
    ImbalanceBound(|BlackSet(g)|, n * n);
  }

  lemma {:induction false} ProductBound(a: nat, b: nat, a': nat, b': nat)
    requires a <= a' && b <= b'
    ensures a * b <= a' * b'
  {
  }

  lemma {:induction false} ImbalanceBound(black: nat, total: nat)
    requires black <= total && total > 0
    ensures Imbalance(black, total) <= 10
  {
    var d := Abs(black * 20 - total * 10);
    var q := (d + total - 1) / total;
    CeilingFacts(d, total);
    if q >= 12 {
      MultiplyOrder(11, q - 1, total);
    }
  }
}
