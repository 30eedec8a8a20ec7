/**
 The quorum mesh generator: links are added one at a time, always between nodes with few links
 and where it helps most pairs, until every pair has enough paths of at most two hops.
 */
module QuorumMesh {
  import opened FiniteSets
  import opened Results

  /** A directed connection. */
  datatype Link = Link(from: nat, to: nat)

  type Links = set<Link>

  // ---------- paths ----------

  /** Two nodes are linked when either connects to the other. */
  predicate Linked(g: Links, a: nat, b: nat) {
    Link(a, b) in g || Link(b, a) in g
  }

  /** The nodes that lie between `i` and `j`. */
  ghost function Between(n: nat, g: Links, i: nat, j: nat): (s: set<nat>)
    ensures forall k: nat :: k in s <==> k < n && k != i && k != j && Linked(g, k, i) && Linked(g, k, j)
  {
    set k: nat | k < n && k != i && k != j && Linked(g, k, i) && Linked(g, k, j)
  }

  /** The paths of at most two hops from `i` to `j`. */
  ghost function Paths(n: nat, g: Links, i: nat, j: nat): set<seq<nat>> {
    (if Linked(g, i, j) then {[i, j]} else {}) + (set k | k in Between(n, g, i, j) :: [i, k, j])
  }

  ghost function PathCount(n: nat, g: Links, i: nat, j: nat): nat {
    |Between(n, g, i, j)| + (if Linked(g, i, j) then 1 else 0)
  }

  lemma {:induction false} ThroughCount(s: set<nat>, i: nat, j: nat)
    ensures |set k | k in s :: [i, k, j]| == |s|
  {
    var t := set k | k in s :: [i, k, j];
    if k :| k in s {
      var s' := s - {k};
      ThroughCount(s', i, j);
      var t' := set k | k in s' :: [i, k, j];
      assert forall p :: p in t' ==> p[1] in s';
      assert [i, k, j][1] == k;
      assert t == t' + {[i, k, j]};
    } else {
      assert s == {};
      assert t == {};
    }
  }

  /** The count is the number of different paths. */
  lemma {:induction false} PathCountIsPaths(n: nat, g: Links, i: nat, j: nat)
    ensures PathCount(n, g, i, j) == |Paths(n, g, i, j)|
  {
    var through := set k | k in Between(n, g, i, j) :: [i, k, j];
    ThroughCount(Between(n, g, i, j), i, j);
    assert [i, j] !in through by {
      assert forall p :: p in through ==> |p| == 3;
    }
    if Linked(g, i, j) {
      assert Paths(n, g, i, j) == {[i, j]} + through;
    } else {
      assert Paths(n, g, i, j) == through;
    }
  }

  lemma {:induction false} PathCountSymmetric(n: nat, g: Links, i: nat, j: nat)
    ensures PathCount(n, g, i, j) == PathCount(n, g, j, i)
  {
    assert Between(n, g, i, j) == Between(n, g, j, i);
  }

  /** More links never mean fewer paths. */
  lemma {:induction false} PathCountMonotone(n: nat, g: Links, h: Links, i: nat, j: nat)
    requires g <= h
    ensures PathCount(n, g, i, j) <= PathCount(n, h, i, j)
  {
    SubsetCount(Between(n, g, i, j), Between(n, h, i, j));
  }

  function Nodes(n: nat): (s: set<nat>)
    ensures forall k: nat :: k in s <==> k < n
    ensures |s| == n
  {
    if n == 0 then {} else Nodes(n - 1) + {n - 1}
  }

  /** The nodes other than `i` and `j`. */
  function Others(n: nat, i: nat, j: nat): (s: set<nat>)
    requires i < n && j < n && i != j
    ensures forall k: nat :: k in s <==> k < n && k != i && k != j
    ensures |s| == n - 2
  {
    assert |Nodes(n) - {i}| == n - 1;
    Nodes(n) - {i} - {j}
  }

  /** No pair can have more than `n - 1` paths, however many links there are. */
  lemma {:induction false} PathCountBound(n: nat, g: Links, i: nat, j: nat)
    requires i < n && j < n && i != j
    ensures PathCount(n, g, i, j) <= n - 1
  {
    hide Nodes, Others;
    SubsetCount(Between(n, g, i, j), Others(n, i, j));
  }

  /** With every pair linked, every pair has `n - 1` paths. */
  lemma {:induction false} CompletePathCount(n: nat, g: Links, i: nat, j: nat)
    requires i < n && j < n && i != j
    requires forall a: nat, b: nat :: a < n && b < n && a != b ==> Linked(g, a, b)
    ensures PathCount(n, g, i, j) == n - 1
  {
    hide Nodes, Others;
    assert Between(n, g, i, j) == Others(n, i, j);
  }

  // ---------- the least connected pairs ----------

  datatype Pair = Pair(i: nat, j: nat)

  ghost function Pairs(n: nat): (s: set<Pair>)
    ensures forall p :: p in s <==> p.i < p.j < n
  {
    set i: nat, j: nat | i < j < n :: Pair(i, j)
  }

  /** `m` is the smallest path count of any pair. */
  ghost predicate IsMin(n: nat, g: Links, m: nat) {
    && (forall p :: p in Pairs(n) ==> m <= PathCount(n, g, p.i, p.j))
    && (exists p :: p in Pairs(n) && PathCount(n, g, p.i, p.j) == m)
  }

  lemma {:induction false} MinUnique(n: nat, g: Links, m: nat, m': nat)
    requires IsMin(n, g, m) && IsMin(n, g, m')
    ensures m == m'
  {
  }

  lemma {:induction false} MinMonotone(n: nat, g: Links, h: Links, m: nat, m': nat)
    requires g <= h && IsMin(n, g, m) && IsMin(n, h, m')
    ensures m <= m'
  {
    hide PathCount;
    var p :| p in Pairs(n) && PathCount(n, h, p.i, p.j) == m';
    PathCountMonotone(n, g, h, p.i, p.j);
  }

  /** The pairs with at most `m` paths. */
  ghost function Weak(n: nat, g: Links, m: nat): (s: set<Pair>)
    ensures forall p :: p in s <==> p in Pairs(n) && PathCount(n, g, p.i, p.j) <= m
  {
    set p | p in Pairs(n) && PathCount(n, g, p.i, p.j) <= m
  }

  // ---------- the choice of a link ----------

  /** A link that may be added: between different nodes that are not linked yet. */
  predicate Candidate(n: nat, g: Links, e: Link) {
    e.from < n && e.to < n && e.from != e.to && !Linked(g, e.from, e.to)
  }

  ghost function Outgoing(g: Links, i: nat): set<Link> {
    set e | e in g && e.from == i
  }

  ghost function Incoming(g: Links, j: nat): set<Link> {
    set e | e in g && e.to == j
  }

  datatype Cost = Cost(degrees: nat, weak: nat) {

    /** Fewer links first, then fewer weak pairs. */
    predicate Below(o: Cost) {
      degrees < o.degrees || (degrees == o.degrees && weak < o.weak)
    }
  }

  ghost function CostOf(n: nat, g: Links, m: nat, e: Link): Cost {
    Cost(|Outgoing(g, e.from)| + 1 + |Incoming(g, e.to)| + 1, |Weak(n, g + {e}, m)|)
  }

  /** `e` comes before `f` in the order the links are tried. */
  predicate Earlier(e: Link, f: Link) {
    e.from < f.from || (e.from == f.from && e.to < f.to)
  }

  /** The links that leave the start of `e` and those that enter its end. */
  ghost function Crowd(g: Links, e: Link): nat {
    |set l | l in g && l.from == e.from| + |set l | l in g && l.to == e.to|
  }

  /** The pairs that still have at most `m` paths once `e` is there. */
  ghost function StillWeak(n: nat, g: Links, m: nat, e: Link): nat {
    |set p | p in Pairs(n) && PathCount(n, g + {e}, p.i, p.j) <= m|
  }

  /** `f` is no better than `e`: it does not join less linked nodes; if just as much linked ones, it does not
      help more pairs; and if just as many, it does not come before `e` in row order. */
  ghost predicate NoBetter(n: nat, g: Links, m: nat, e: Link, f: Link) {
    && Crowd(g, e) <= Crowd(g, f)
    && (Crowd(g, e) == Crowd(g, f) ==>
          && StillWeak(n, g, m, e) <= StillWeak(n, g, m, f)
          && (StillWeak(n, g, m, e) == StillWeak(n, g, m, f) ==>
                e.from < f.from || (e.from == f.from && e.to <= f.to)))
  }

  /** `e` is the first of the best links that may be added. */
  ghost predicate IsChoice(n: nat, g: Links, m: nat, e: Link) {
    Candidate(n, g, e) && forall f :: Candidate(n, g, f) ==> NoBetter(n, g, m, e, f)
  }

  /** The comparison of costs in the search amounts to that. */
  lemma {:induction false} CostMeans(n: nat, g: Links, m: nat, e: Link, f: Link)
    ensures NoBetter(n, g, m, e, f) <==>
            && !CostOf(n, g, m, f).Below(CostOf(n, g, m, e))
            && (Earlier(f, e) ==> CostOf(n, g, m, e).Below(CostOf(n, g, m, f)))
  {
    CostIsCrowd(n, g, m, e);
    CostIsCrowd(n, g, m, f);
    hide CostOf, Crowd, StillWeak;
  }

  lemma {:induction false} CostIsCrowd(n: nat, g: Links, m: nat, e: Link)
    ensures CostOf(n, g, m, e) == Cost(Crowd(g, e) + 2, StillWeak(n, g, m, e))
  {
    hide PathCount;
    assert Weak(n, g + {e}, m) == set p | p in Pairs(n) && PathCount(n, g + {e}, p.i, p.j) <= m;
  }

  /** A set of links as the generator builds them: inside the mesh, no self-loop, one direction per pair. */
  ghost predicate WellFormed(n: nat, g: Links) {
    forall e :: e in g ==> e.from < n && e.to < n && e.from != e.to && Link(e.to, e.from) !in g
  }

  lemma {:induction false} DegreeBound(s: set<Link>, ends: set<nat>, outgoing: bool, v: nat)
    requires forall e :: e in s ==> if outgoing then e.from == v && e.to in ends else e.to == v && e.from in ends
    ensures |s| <= |ends|
    decreases ends
  {
    if k :| k in ends {
      var e := if outgoing then Link(v, k) else Link(k, v);
      DegreeBound(s - {e}, ends - {k}, outgoing, v);
      assert |s| <= |s - {e}| + 1;
    } else {
      assert s == {};
    }
  }

  /** Every link that may be added costs less than the starting bound `2n`. */
  lemma {:induction false} CandidateIsCheap(n: nat, g: Links, m: nat, e: Link)
    requires WellFormed(n, g) && Candidate(n, g, e)
    ensures CostOf(n, g, m, e).degrees <= 2 * n - 2
  {
    hide Nodes, Others;
    var others := Others(n, e.from, e.to);
    DegreeBound(Outgoing(g, e.from), others, true, e.from);
    DegreeBound(Incoming(g, e.to), others, false, e.to);
  }

  ghost function Candidates(n: nat, g: Links): (s: set<Link>)
    ensures forall e :: e in s <==> Candidate(n, g, e)
  {
    set i: nat, j: nat | i < n && j < n && i != j && !Linked(g, i, j) :: Link(i, j)
  }

  /** While the target is not met and is within reach, some link may be added. */
  lemma {:induction false} CandidateExists(n: nat, g: Links, m: nat)
    requires n >= 2 && IsMin(n, g, m) && m < n - 1
    ensures Candidates(n, g) != {}
  {
    hide PathCount;
    if Candidates(n, g) == {} {
      var p :| p in Pairs(n) && PathCount(n, g, p.i, p.j) == m;
      forall a: nat, b: nat | a < n && b < n && a != b ensures Linked(g, a, b) {
        assert Link(a, b) !in Candidates(n, g);
      }
      CompletePathCount(n, g, p.i, p.j);
      assert false;
    }
  }

  // ---------- runs ----------

  datatype State = State(links: Links, minPaths: nat)

  /** The link a round adds; a complete mesh leaves nothing but the fallback (0, 0). */
  ghost predicate IsPick(n: nat, g: Links, m: nat, e: Link) {
    if Candidates(n, g) == {} then e == Link(0, 0) else IsChoice(n, g, m, e)
  }

  /** One round of the generator. */
  ghost predicate IsStep(n: nat, target: int, s: State, t: State) {
    && s.minPaths < target
    && (exists e :: IsPick(n, s.links, s.minPaths, e) && t.links == s.links + {e})
    && IsMin(n, t.links, t.minPaths)
  }

  ghost predicate IsRun(n: nat, target: int, run: seq<State>) {
    && |run| >= 1 && run[0] == State({}, 0)
    && forall k :: 0 <= k < |run| - 1 ==> IsStep(n, target, run[k], run[k + 1])
  }

  lemma {:induction false} EmptyMin(n: nat)
    requires n >= 2
    ensures IsMin(n, {}, 0)
  {
    assert Pair(0, 1) in Pairs(n);
    assert Between(n, {}, 0, 1) == {};
  }

  /** What one round does while the target is in reach: it adds one fresh link between nodes that were not
      linked, which leaves one possible link fewer and no pair with fewer paths. */
  lemma {:induction false} StepProgress(n: nat, target: int, s: State, t: State)
    requires n >= 2 && target <= n - 1
    requires WellFormed(n, s.links) && IsMin(n, s.links, s.minPaths) && IsStep(n, target, s, t)
    ensures exists e :: IsChoice(n, s.links, s.minPaths, e) && t.links == s.links + {e}
    ensures WellFormed(n, t.links) && IsMin(n, t.links, t.minPaths)
    ensures |t.links| == |s.links| + 1
    ensures |Candidates(n, t.links)| + 1 <= |Candidates(n, s.links)|
    ensures s.minPaths <= t.minPaths
  {
    hide IsMin, NoBetter;
    CandidateExists(n, s.links, s.minPaths);
    var e :| IsPick(n, s.links, s.minPaths, e) && t.links == s.links + {e};
    MinMonotone(n, s.links, t.links, s.minPaths, t.minPaths);
    assert e !in s.links;
    SubsetCount(Candidates(n, t.links), Candidates(n, s.links) - {e});
  }

  /** In every run the links stay well formed, the minimum is right, and it never goes down. */
  lemma {:induction false} RunInvariant(n: nat, target: int, run: seq<State>, k: nat)
    requires n >= 2 && target <= n - 1 && IsRun(n, target, run) && k < |run|
    ensures WellFormed(n, run[k].links) && IsMin(n, run[k].links, run[k].minPaths)
    ensures |run[k].links| == k
    ensures forall j :: 0 <= j <= k ==> run[j].minPaths <= run[k].minPaths
    ensures |Candidates(n, run[k].links)| + k <= |Candidates(n, {})|
  {
    hide IsMin, IsChoice, Candidates, IsStep;
    if k == 0 {
      EmptyMin(n);
    } else {
      RunInvariant(n, target, run, k - 1);
      assert IsStep(n, target, run[k - 1], run[k]);
      StepProgress(n, target, run[k - 1], run[k]);
    }
  }

  // ---------- the generator has one run ----------

  lemma {:induction false} PickUnique(n: nat, g: Links, m: nat, e: Link, f: Link)
    requires IsPick(n, g, m, e) && IsPick(n, g, m, f)
    ensures e == f
  {
    hide Crowd, StillWeak, Candidates;
  }

  /** A round leads to one state only. */
  lemma {:induction false} StepUnique(n: nat, target: int, s: State, t: State, t': State)
    requires IsStep(n, target, s, t) && IsStep(n, target, s, t')
    ensures t == t'
  {
    hide IsPick, IsMin;
    var e :| IsPick(n, s.links, s.minPaths, e) && t.links == s.links + {e};
    var f :| IsPick(n, s.links, s.minPaths, f) && t'.links == s.links + {f};
    PickUnique(n, s.links, s.minPaths, e, f);
    MinUnique(n, t.links, t.minPaths, t'.minPaths);
  }

  /** Any two runs are in the same state after the same number of rounds. */
  lemma {:induction false} RunsAgree(n: nat, target: int, r1: seq<State>, r2: seq<State>, k: nat)
    requires IsRun(n, target, r1) && IsRun(n, target, r2) && k < |r1| && k < |r2|
    ensures r1[k] == r2[k]
  {
    hide IsStep;
    if k != 0 {
      RunsAgree(n, target, r1, r2, k - 1);
      assert IsStep(n, target, r1[k - 1], r1[k - 1 + 1]) && IsStep(n, target, r2[k - 1], r2[k - 1 + 1]);
      StepUnique(n, target, r1[k - 1], r1[k], r2[k]);
    }
  }

  /** Runs are bounded: no run has more rounds than there are possible links. */
  lemma {:induction false} RunLength(n: nat, target: int, run: seq<State>)
    requires n >= 2 && target <= n - 1 && IsRun(n, target, run)
    ensures |run| - 1 <= |Candidates(n, {})|
  {
    RunInvariant(n, target, run, |run| - 1);
  }

  // ---------- when the generator ends ----------

  /** The run has met its target, so the loop ends here. */
  ghost predicate Ends(n: nat, target: int, run: seq<State>) {
    IsRun(n, target, run) && run[|run| - 1].minPaths >= target
  }

  /** No round of any run meets a target above `n - 1`. */
  lemma {:induction false} OutOfReach(n: nat, target: int, run: seq<State>)
    requires n >= 2 && IsRun(n, target, run) && target > n - 1
    ensures run[|run| - 1].minPaths < target
  {
    hide PathCount, IsPick;
    var k := |run| - 1;
    EmptyMin(n);
    assert k > 0 ==> IsStep(n, target, run[k - 1], run[k]);
    var p :| p in Pairs(n) && PathCount(n, run[k].links, p.i, p.j) == run[k].minPaths;
    PathCountBound(n, run[k].links, p.i, p.j);
  }

  /** Any run can be continued until the target is met, if it is at most `n - 1`. */
  lemma {:induction false} RunOn(n: nat, target: int, run: seq<State>) returns (full: seq<State>)
    requires n >= 2 && IsRun(n, target, run) && target <= n - 1
    ensures Ends(n, target, full)
    decreases |Candidates(n, run[|run| - 1].links)|
  {
    hide IsMin, IsChoice, Candidates;
    var s := run[|run| - 1];
    if s.minPaths >= target {
      return run;
    }
    RunInvariant(n, target, run, |run| - 1);
    CandidateExists(n, s.links, s.minPaths);
    var e := ChoiceExists(n, s.links, s.minPaths);
    var m := MinExists(n, s.links + {e});
    var t := State(s.links + {e}, m);
    ChoiceIsStep(n, target, s, e, t);
    StepProgress(n, target, s, t);
    RunSnoc(n, target, run, t);
    full := RunOn(n, target, run + [t]);
  }

  lemma {:induction false} TargetStillAhead(n: nat, target: int, run: seq<State>, k: nat)
    requires IsRun(n, target, run) && k + 1 < |run|
    ensures run[k].minPaths < target
  {
    assert IsStep(n, target, run[k], run[k + 1]);
  }

  /** Every run is the beginning of the one that ends. */
  lemma {:induction false} EndingRunIsLongest(n: nat, target: int, full: seq<State>, run: seq<State>)
    requires Ends(n, target, full) && IsRun(n, target, run)
    ensures run <= full
  {
    hide IsPick, IsMin;
    var last := |full| - 1;
    if |run| > |full| {
      RunsAgree(n, target, full, run, last);
      TargetStillAhead(n, target, run, last);
      assert false;
    }
    forall k | 0 <= k < |run| ensures run[k] == full[k] {
      RunsAgree(n, target, full, run, k);
    }
  }

  lemma {:induction false} LinkAdded(n: nat, g: Links, e: Link)
    ensures Candidates(n, g) == {} ==> Candidates(n, g + {e}) == {}
    ensures WellFormed(n, g) && Candidate(n, g, e) ==> WellFormed(n, g + {e})
  {
    if Candidates(n, g) == {} {
      assert forall f :: Candidate(n, g + {e}, f) ==> f in Candidates(n, g);
    }
  }

  /** With a target out of reach there is always another round. */
  lemma {:induction false} RunGoesOn(n: nat, target: int, rounds: nat) returns (run: seq<State>)
    requires n >= 2 && target > n - 1
    ensures IsRun(n, target, run) && |run| == rounds + 1
    ensures var g := run[rounds].links; WellFormed(n, g) || Candidates(n, g) == {}
  {
    hide IsMin, IsChoice, Candidates, IsRun, WellFormed;
    if rounds == 0 {
      FirstRound(n, target);
      run := [State({}, 0)];
    } else {
      run := RunGoesOn(n, target, rounds - 1);
      OutOfReach(n, target, run);
      var s, e := run[|run| - 1], Link(0, 0);
      if Candidates(n, s.links) != {} {
        e := ChoiceExists(n, s.links, s.minPaths);
        ChoiceIsCandidate(n, s.links, s.minPaths, e);
      }
      LinkAdded(n, s.links, e);
      var m := MinExists(n, s.links + {e});
      assert IsPick(n, s.links, s.minPaths, e);
      RunSnoc(n, target, run, State(s.links + {e}, m));
      run := run + [State(s.links + {e}, m)];
    }
  }

  /** The generator's run ends exactly when the target is at most one less than the number of nodes; all
      runs are beginnings of it then, and otherwise there are runs of every length. */
  lemma {:induction false} EndsIffInReach(n: nat, target: int)
    requires n >= 2
    ensures (exists run :: Ends(n, target, run)) <==> target <= n - 1
    ensures forall full, run :: Ends(n, target, full) && IsRun(n, target, run) ==> run <= full
    ensures target > n - 1 ==> forall rounds: nat :: HasRun(n, target, rounds)
  {
    hide IsRun;
    if target <= n - 1 {
      FirstRound(n, target);
      var full := RunOn(n, target, [State({}, 0)]);
    } else {
      forall run | IsRun(n, target, run) ensures !Ends(n, target, run) {
        OutOfReach(n, target, run);
      }
      forall rounds: nat ensures HasRun(n, target, rounds) {
        var run := RunGoesOn(n, target, rounds);
      }
    }
    forall full, run | Ends(n, target, full) && IsRun(n, target, run) ensures run <= full {
      EndingRunIsLongest(n, target, full, run);
    }
  }

  /** There is a run of that many rounds. */
  ghost predicate HasRun(n: nat, target: int, rounds: nat) {
    exists run :: IsRun(n, target, run) && |run| == rounds + 1
  }

  /** Two nodes cannot have two paths: the generator would go on for ever. */
  lemma {:induction false} TwoNodesTwoPaths(run: seq<State>)
    ensures !Ends(2, 2, run)
  {
    if IsRun(2, 2, run) {
      OutOfReach(2, 2, run);
    }
  }

  lemma {:induction false} FirstRound(n: nat, target: int)
    requires n >= 2
    ensures IsRun(n, target, [State({}, 0)]) && WellFormed(n, {}) && IsMin(n, {}, 0)
  {
    hide IsMin;
    EmptyMin(n);
  }

  lemma {:induction false} ChoiceIsStep(n: nat, target: int, s: State, e: Link, t: State)
    requires s.minPaths < target && IsChoice(n, s.links, s.minPaths, e)
    requires t.links == s.links + {e} && IsMin(n, t.links, t.minPaths)
    ensures IsStep(n, target, s, t)
  {
    hide IsMin, NoBetter;
    assert e in Candidates(n, s.links);
    assert IsPick(n, s.links, s.minPaths, e);
  }

  lemma {:induction false} RunSnoc(n: nat, target: int, run: seq<State>, t: State)
    requires IsRun(n, target, run) && IsStep(n, target, run[|run| - 1], t)
    ensures IsRun(n, target, run + [t])
  {
    hide IsStep;
  }

  /** There is a smallest path count. */
  lemma {:induction false} MinExists(n: nat, g: Links) returns (m: nat)
    requires n >= 2
    ensures IsMin(n, g, m)
  {
    hide PathCount;
    var rest, p := Pairs(n), Pair(0, 1);
    m := PathCount(n, g, 0, 1);
    while rest != {}
      invariant rest <= Pairs(n) && p in Pairs(n) && PathCount(n, g, p.i, p.j) == m
      invariant forall q :: q in Pairs(n) - rest ==> m <= PathCount(n, g, q.i, q.j)
      decreases rest
    {
      var q :| q in rest;
      if PathCount(n, g, q.i, q.j) < m {
        m, p := PathCount(n, g, q.i, q.j), q;
      }
      rest := rest - {q};
    }
  }

  /** If any link may be added, one of them is the first of the cheapest. */
  lemma {:induction false} ChoiceExists(n: nat, g: Links, m: nat) returns (e: Link)
    requires WellFormed(n, g) && Candidates(n, g) != {}
    ensures IsChoice(n, g, m, e)
  {
    hide BestSoFar, CostOf, IsChoice, Candidates;
    var found, best := false, Cost(2 * n, 0);
    e := Link(0, 0);
    SearchStarts(n, g, m, best);
    for i := 0 to n
      invariant BestSoFar(n, g, m, i, 0, found, e, best)
    {
      for j := 0 to n
        invariant BestSoFar(n, g, m, i, j, found, e, best)
      {
        var f := Link(i, j);
        if Candidate(n, g, f) {
          SearchStep(n, g, m, i, j, found, e, best);
          if CostOf(n, g, m, f).Below(best) {
            e, best, found := f, CostOf(n, g, m, f), true;
          }
        } else {
          SearchSkips(n, g, m, i, j, found, e, best);
        }
      }
      SearchRow(n, g, m, i, found, e, best);
    }
    SearchEnds(n, g, m, found, e, best);
  }

  // ---------- scanning ----------

  ghost function PairsBefore(s: set<Pair>, i: nat, j: nat): set<Pair> {
    set p | p in s && (p.i < i || (p.i == i && p.j < j))
  }

  lemma {:induction false} PairStep(s: set<Pair>, i: nat, j: nat)
    ensures |PairsBefore(s, i, j + 1)| == |PairsBefore(s, i, j)| + (if Pair(i, j) in s then 1 else 0)
  {
    if Pair(i, j) in s {
      assert PairsBefore(s, i, j + 1) == PairsBefore(s, i, j) + {Pair(i, j)};
    } else {
      assert PairsBefore(s, i, j + 1) == PairsBefore(s, i, j);
    }
  }

  lemma {:induction false} PairRow(s: set<Pair>, n: nat, i: nat)
    requires s <= Pairs(n)
    ensures PairsBefore(s, i, n) == PairsBefore(s, i + 1, i + 2)
  {
  }

  lemma {:induction false} PairEnds(s: set<Pair>, n: nat)
    requires s <= Pairs(n)
    ensures PairsBefore(s, 0, 1) == {} && PairsBefore(s, n, n + 1) == s
  {
  }

  /** The links tried before the one from `i` to `j`. */
  predicate Tried(f: Link, i: nat, j: nat) {
    f.from < i || (f.from == i && f.to < j)
  }

  /** The state of the search: the first of the cheapest links tried so far, or the starting bound. */
  ghost predicate BestSoFar(n: nat, g: Links, m: nat, i: nat, j: nat, found: bool, e: Link, best: Cost) {
    if found then
      && Candidate(n, g, e) && Tried(e, i, j) && best == CostOf(n, g, m, e)
      && forall f :: Candidate(n, g, f) && Tried(f, i, j) ==>
           && !CostOf(n, g, m, f).Below(best)
           && (Earlier(f, e) ==> best.Below(CostOf(n, g, m, f)))
    else
      && e == Link(0, 0) && best.degrees == 2 * n
      && forall f :: Candidate(n, g, f) ==> !Tried(f, i, j)
  }

  lemma {:induction false} SearchSkips(n: nat, g: Links, m: nat, i: nat, j: nat, found: bool, e: Link, best: Cost)
    requires BestSoFar(n, g, m, i, j, found, e, best) && !Candidate(n, g, Link(i, j))
    ensures BestSoFar(n, g, m, i, j + 1, found, e, best)
  {
    hide CostOf;
  }

  lemma {:induction false} SearchStep(n: nat, g: Links, m: nat, i: nat, j: nat, found: bool, e: Link, best: Cost)
    requires WellFormed(n, g) && BestSoFar(n, g, m, i, j, found, e, best) && Candidate(n, g, Link(i, j))
    ensures var c := CostOf(n, g, m, Link(i, j));
            if c.Below(best) then BestSoFar(n, g, m, i, j + 1, true, Link(i, j), c)
            else BestSoFar(n, g, m, i, j + 1, found, e, best)
  {
    hide CostOf;
    CandidateIsCheap(n, g, m, Link(i, j));
  }

  lemma {:induction false} SearchRow(n: nat, g: Links, m: nat, i: nat, found: bool, e: Link, best: Cost)
    requires BestSoFar(n, g, m, i, n, found, e, best)
    ensures BestSoFar(n, g, m, i + 1, 0, found, e, best)
  {
    hide CostOf;
  }

  lemma {:induction false} SearchEnds(n: nat, g: Links, m: nat, found: bool, e: Link, best: Cost)
    requires BestSoFar(n, g, m, n, 0, found, e, best)
    ensures found ==> IsChoice(n, g, m, e)
    ensures !found ==> e == Link(0, 0) && Candidates(n, g) == {}
  {
    hide CostOf, NoBetter;
    if found {
      forall f | Candidate(n, g, f) ensures NoBetter(n, g, m, e, f) {
        CostMeans(n, g, m, e, f);
      }
    }
    if !found {
      assert forall f :: f !in Candidates(n, g);
    }
  }

  // ---------- the generator ----------

  class Mesh {
    const nodes: nat
    var conns: array2<int>

    ghost predicate Valid()
      reads this, conns
    {
      && conns.Length0 == conns.Length1 == nodes
      && forall i, j :: 0 <= i < nodes && 0 <= j < nodes ==> conns[i, j] == 0 || conns[i, j] == 1
    }

    /** The links the matrix stands for. */
    ghost function Graph(): (g: Links)
      requires Valid()
      reads this, conns
      ensures forall e :: e in g <==> e.from < nodes && e.to < nodes && conns[e.from, e.to] == 1
    {
      set i: nat, j: nat | i < nodes && j < nodes && conns[i, j] == 1 :: Link(i, j)
    }

    constructor (n: nat)
      ensures Valid() && nodes == n && Graph() == {} && fresh(conns)
    {
      nodes := n;
      conns := new int[n, n]((_, _) => 0);
    }

    /** Sets or clears one connection. */
    method SetConn(i: nat, j: nat, on: bool)
      requires Valid() && i < nodes && j < nodes
      modifies conns
      ensures Valid()
      ensures Graph() == if on then old(Graph()) + {Link(i, j)} else old(Graph()) - {Link(i, j)}
    {
      conns[i, j] := if on then 1 else 0;
      ghost var g := if on then old(Graph()) + {Link(i, j)} else old(Graph()) - {Link(i, j)};
      assert forall e :: e in Graph() <==> e in g;
    }

    /** The nodes linked to `j`, in ascending order. */
    method Neighbours(j: nat) returns (neighbours: seq<nat>)
      requires Valid() && j < nodes
      ensures forall k: nat :: k in neighbours <==> k < nodes && k != j && Linked(Graph(), k, j)
      ensures forall a, b :: 0 <= a < b < |neighbours| ==> neighbours[a] < neighbours[b]
    {
      neighbours := [];
      for r := 0 to j
        invariant forall k: nat :: k in neighbours <==> k < r && Linked(Graph(), k, j)
        invariant forall a :: 0 <= a < |neighbours| ==> neighbours[a] < r
        invariant forall a, b :: 0 <= a < b < |neighbours| ==> neighbours[a] < neighbours[b]
      {
        if conns[r, j] != 0 || conns[j, r] > 0 {
          neighbours := neighbours + [r];
        }
      }
      for c := j + 1 to nodes
        invariant forall k: nat :: k in neighbours <==> k < c && k != j && Linked(Graph(), k, j)
        invariant forall a :: 0 <= a < |neighbours| ==> neighbours[a] < c
        invariant forall a, b :: 0 <= a < b < |neighbours| ==> neighbours[a] < neighbours[b]
      {
        if conns[j, c] != 0 || conns[c, j] > 0 {
          neighbours := neighbours + [c];
        }
      }
    }

    /** The number of paths of at most two hops between two nodes. */
    method CountPathsWithinTwo(first: nat, second: nat) returns (paths: nat)
      requires Valid() && first < nodes && second < nodes && first != second
      ensures paths == PathCount(nodes, Graph(), first, second)
    {
      hide PathCount;
      var i, j := first, second;
      if i > j {
        i, j := j, i;
        PathCountSymmetric(nodes, Graph(), first, second);
      }
      var neighbours := Neighbours(j);
      ghost var hits := {};
      paths := 0;
      for t := 0 to |neighbours|
        invariant paths == |hits|
        invariant forall k :: k in hits <==> k in neighbours[..t] && (k == i || Linked(Graph(), k, i))
      {
        var n := neighbours[t];
        assert n in neighbours && n !in neighbours[..t];
        if n == i || conns[n, i] > 0 || conns[i, n] > 0 {
          paths := paths + 1;
          hits := hits + {n};
        }
      }
      assert neighbours[..|neighbours|] == neighbours;
      HitsArePaths(nodes, Graph(), i, j, hits);
    }

    /** The smallest path count of any pair; none if there are no pairs. */
    method MinWithinTwo() returns (m: Option<nat>)
      requires Valid()
      ensures if nodes >= 2 then m.Some? && IsMin(nodes, Graph(), m.value) else m == None
    {
      hide PathCount;
      ghost var g := Graph();
      ghost var all := Pairs(nodes);
      PairEnds(all, nodes);
      m := None;
      for i := 0 to nodes
        invariant MinSoFar(nodes, g, PairsBefore(all, i, i + 1), m)
      {
        for j := i + 1 to nodes
          invariant MinSoFar(nodes, g, PairsBefore(all, i, j), m)
        {
          var c := CountPathsWithinTwo(i, j);
          assert PairsBefore(all, i, j + 1) == PairsBefore(all, i, j) + {Pair(i, j)};
          if m.None? || c < m.value {
            m := Some(c);
          }
        }
        PairRow(all, nodes, i);
      }
      if nodes >= 2 {
        assert Pair(0, 1) in all;
      }
    }

    /** The number of pairs with at most `minPaths` paths. */
    method CountNotWithinTwo(minPaths: nat) returns (c: nat)
      requires Valid()
      ensures c == |Weak(nodes, Graph(), minPaths)|
    {
      hide PathCount, PairsBefore;
      ghost var weak := Weak(nodes, Graph(), minPaths);
      PairEnds(weak, nodes);
      c := 0;
      for i := 0 to nodes
        invariant c == |PairsBefore(weak, i, i + 1)|
      {
        for j := i + 1 to nodes
          invariant c == |PairsBefore(weak, i, j)|
        {
          PairStep(weak, i, j);
          var n := CountPathsWithinTwo(i, j);
          if n <= minPaths {
            c := c + 1;
          }
        }
        PairRow(weak, nodes, i);
      }
    }

    method SumOutgoing(i: nat) returns (total: nat)
      requires Valid() && i < nodes
      ensures total == |Outgoing(Graph(), i)|
    {
      ghost var out, seen := Outgoing(Graph(), i), {};
      total := 0;
      for j := 0 to nodes
        invariant total == |seen|
        invariant forall e :: e in seen <==> e in out && e.to < j
      {
        total := total + conns[i, j];
        if conns[i, j] == 1 {
          seen := seen + {Link(i, j)};
        }
      }
      assert seen == out;
    }

    method SumIncoming(j: nat) returns (total: nat)
      requires Valid() && j < nodes
      ensures total == |Incoming(Graph(), j)|
    {
      ghost var into, seen := Incoming(Graph(), j), {};
      total := 0;
      for k := 0 to nodes
        invariant total == |seen|
        invariant forall e :: e in seen <==> e in into && e.from < k
      {
        total := total + conns[k, j];
        if conns[k, j] == 1 {
          seen := seen + {Link(k, j)};
        }
      }
      assert seen == into;
    }

    /** What adding the link would cost; the matrix is as before afterwards. */
    method TryLink(i: nat, j: nat, outgoingConns: nat, incomingConns: nat, minPaths: nat) returns (c: Cost)
      requires Valid() && Candidate(nodes, Graph(), Link(i, j))
      requires outgoingConns == |Outgoing(Graph(), i)| + 1 && incomingConns == |Incoming(Graph(), j)| + 1
      modifies conns
      ensures Valid() && Graph() == old(Graph())
      ensures c == CostOf(nodes, Graph(), minPaths, Link(i, j))
    {
      hide Weak;
      SetConn(i, j, true);
      var weak := CountNotWithinTwo(minPaths);
      SetConn(i, j, false);
      assert Graph() == old(Graph());
      c := Cost(outgoingConns + incomingConns, weak);
    }

    /** Takes one more link into account. */
    method Consider(i: nat, j: nat, outgoing: nat, minPaths: nat, best: Link, cost: Cost, ghost found: bool)
      returns (newBest: Link, newCost: Cost, ghost newFound: bool)
      requires Valid() && WellFormed(nodes, Graph()) && i < nodes && j < nodes && outgoing == |Outgoing(Graph(), i)|
      requires BestSoFar(nodes, Graph(), minPaths, i, j, found, best, cost)
      modifies conns
      ensures Valid() && Graph() == old(Graph())
      ensures BestSoFar(nodes, Graph(), minPaths, i, j + 1, newFound, newBest, newCost)
    {
      hide BestSoFar, CostOf, Weak, WellFormed, Cost.Below, Outgoing, Incoming;
      newBest, newCost, newFound := best, cost, found;
      var incoming := SumIncoming(j);
      if i == j || conns[i, j] != 0 || conns[j, i] != 0 {
        SearchSkips(nodes, Graph(), minPaths, i, j, found, best, cost);
      } else {
        SearchStep(nodes, Graph(), minPaths, i, j, found, best, cost);
        var c := TryLink(i, j, outgoing + 1, incoming + 1, minPaths);
        if c.Below(cost) {
          newBest, newCost, newFound := Link(i, j), c, true;
        }
      }
    }

    /** Finds the cheapest link; only a complete mesh leaves the fallback (0, 0). */
    method FindBest(minPaths: nat) returns (best: Link)
      requires Valid() && WellFormed(nodes, Graph())
      modifies conns
      ensures Valid() && Graph() == old(Graph())
      ensures if Candidates(nodes, Graph()) == {} then best == Link(0, 0) else IsChoice(nodes, Graph(), minPaths, best)
    {
      hide BestSoFar, CostOf, IsChoice, Candidates, Weak, WellFormed, Cost.Below, Outgoing, Incoming;
      ghost var g := Graph();
      var weak := CountNotWithinTwo(minPaths);
      var cost := Cost(nodes + nodes, weak);
      best := Link(0, 0);
      ghost var found := false;
      SearchStarts(nodes, g, minPaths, cost);
      for i := 0 to nodes
        invariant Valid() && Graph() == g && BestSoFar(nodes, g, minPaths, i, 0, found, best, cost)
      {
        var outgoing := SumOutgoing(i);
        for j := 0 to nodes
          invariant Valid() && Graph() == g && BestSoFar(nodes, g, minPaths, i, j, found, best, cost)
        {
          best, cost, found := Consider(i, j, outgoing, minPaths, best, cost, found);
        }
        SearchRow(nodes, g, minPaths, i, found, best, cost);
      }
      SearchEnds(nodes, g, minPaths, found, best, cost);
      ChoiceIsCandidate(nodes, g, minPaths, best);
    }

    /** Adds links until every pair has `target` paths; `run` records every round. */
    method Connect(target: int) returns (ghost run: seq<State>)
      requires Valid() && nodes >= 2 && Graph() == {} && target <= nodes - 1
      modifies conns
      ensures Valid() && WellFormed(nodes, Graph())
      ensures IsRun(nodes, target, run) && run[|run| - 1].links == Graph()
      ensures forall i: nat, j: nat :: i < j < nodes ==> PathCount(nodes, Graph(), i, j) >= target
    {
      hide IsMin, IsChoice, PathCount, Candidates, IsStep, IsRun, WellFormed;
      var minPaths: nat := 0;
      run := [State({}, 0)];
      FirstRound(nodes, target);
      while minPaths < target
        invariant Valid()
        invariant |run| >= 1 && IsRun(nodes, target, run) && run[|run| - 1] == State(Graph(), minPaths)
        invariant WellFormed(nodes, Graph()) && IsMin(nodes, Graph(), minPaths)
        decreases |Candidates(nodes, Graph())|
      {
        ghost var s := State(Graph(), minPaths);
        CandidateExists(nodes, Graph(), minPaths);
        var best := FindBest(minPaths);
        ChoiceIsCandidate(nodes, Graph(), minPaths, best);
        SetConn(best.from, best.to, true);
        var m := MinWithinTwo();
        minPaths := m.value;
        ghost var t := State(Graph(), minPaths);
        ChoiceIsStep(nodes, target, s, best, t);
        StepProgress(nodes, target, s, t);
        RunSnoc(nodes, target, run, t);
        run := run + [t];
      }
      MinMeans(nodes, Graph(), minPaths);
    }
  }

  lemma {:induction false} HitsArePaths(n: nat, g: Links, i: nat, j: nat, hits: set<nat>)
    requires i < n && j < n && i != j
    requires forall k: nat :: k in hits <==> k < n && k != j && Linked(g, k, j) && (k == i || Linked(g, k, i))
    ensures |hits| == PathCount(n, g, i, j)
  {
    if Linked(g, i, j) {
      assert hits == Between(n, g, i, j) + {i};
    } else {
      assert hits == Between(n, g, i, j);
    }
  }

  /** `m` is the smallest path count among the pairs in `s`. */
  ghost predicate MinSoFar(n: nat, g: Links, s: set<Pair>, m: Option<nat>) {
    match m
    case None => s == {}
    case Some(v) =>
      (forall p :: p in s ==> v <= PathCount(n, g, p.i, p.j)) && exists p :: p in s && PathCount(n, g, p.i, p.j) == v
  }

  lemma {:induction false} SearchStarts(n: nat, g: Links, m: nat, best: Cost)
    requires best.degrees == 2 * n
    ensures BestSoFar(n, g, m, 0, 0, false, Link(0, 0), best)
  {
  }

  lemma {:induction false} ChoiceIsCandidate(n: nat, g: Links, m: nat, e: Link)
    ensures IsChoice(n, g, m, e) ==> Candidate(n, g, e) && e in Candidates(n, g)
  {
  }

  lemma {:induction false} MinMeans(n: nat, g: Links, m: nat)
    requires IsMin(n, g, m)
    ensures forall i: nat, j: nat :: i < j < n ==> PathCount(n, g, i, j) >= m
  {
    hide PathCount;
    forall i: nat, j: nat | i < j < n ensures PathCount(n, g, i, j) >= m {
      assert Pair(i, j) in Pairs(n);
    }
  }
}
