/** The checkpoint table and the choice of the checkpoint that can no longer be overridden. */
module Checkpoints {
  import opened Results

  datatype Kind = Hardcoded | ServiceNode

  /** A checkpoint is a service node checkpoint if and only if it is signed. */
  datatype Checkpoint = Checkpoint(height: nat, blockHash: nat, signatures: nat) {
    function Type(): Kind {
      if signatures > 0 then ServiceNode else Hardcoded
    }
  }

  /** The table holds at most one checkpoint a height and is kept in order of height. */
  ghost predicate Sorted(t: seq<Checkpoint>) {
    forall i, j :: 0 <= i < j < |t| ==> t[i].height < t[j].height
  }

  function Clamp(x: nat, lo: nat, hi: nat): nat {
    if x < lo then lo else if x > hi then hi else x
  }

  // ---------- ranges of checkpoints ----------

  /** The checkpoints from place `i` on, in order, with a height from `lo` to `hi`. */
  function Upward(t: seq<Checkpoint>, i: nat, lo: nat, hi: nat): seq<Checkpoint>
    requires i <= |t|
    decreases |t| - i
  {
    if i == |t| then []
    else (if lo <= t[i].height <= hi then [t[i]] else []) + Upward(t, i + 1, lo, hi)
  }

  /** The checkpoints before place `i`, in descending order, with a height from `lo` to `hi`. */
  function Downward(t: seq<Checkpoint>, i: nat, lo: nat, hi: nat): seq<Checkpoint>
    requires i <= |t|
  {
    if i == 0 then []
    else (if lo <= t[i - 1].height <= hi then [t[i - 1]] else []) + Downward(t, i - 1, lo, hi)
  }

  /** The first `limit` of a sequence; 0 stands for no limit. */
  function First(s: seq<Checkpoint>, limit: nat): seq<Checkpoint> {
    if limit == 0 || |s| <= limit then s else s[..limit]
  }

  /** The checkpoints from `start` to `end`, in that direction, both moved into the table's own range. */
  function Range(t: seq<Checkpoint>, start: nat, end: nat, limit: nat): seq<Checkpoint> {
    if t == [] then []
    else
      var bottom, top := t[0].height, t[|t| - 1].height;
      var from, to := Clamp(start, bottom, top), Clamp(end, bottom, top);
      First(if to >= from then Upward(t, 0, from, to) else Downward(t, |t|, to, from), limit)
  }

  lemma {:induction false} SkipBelow(t: seq<Checkpoint>, i: nat, k: nat, lo: nat, hi: nat)
    requires i <= k <= |t| && forall j :: i <= j < k ==> t[j].height < lo
    ensures Upward(t, i, lo, hi) == Upward(t, k, lo, hi)
    decreases k - i
  {
    if i < k {
      SkipBelow(t, i + 1, k, lo, hi);
    }
  }

  lemma {:induction false} SkipAbove(t: seq<Checkpoint>, i: nat, k: nat, lo: nat, hi: nat)
    requires k <= i <= |t| && forall j :: k <= j < i ==> t[j].height > hi
    ensures Downward(t, i, lo, hi) == Downward(t, k, lo, hi)
    decreases i
  {
    if k < i {
      SkipAbove(t, i - 1, k, lo, hi);
    }
  }

  method FindAt(t: seq<Checkpoint>, height: nat) returns (k: Option<nat>)
    ensures k.Some? ==> k.value < |t| && t[k.value].height == height
    ensures k.None? ==> forall i :: 0 <= i < |t| ==> t[i].height != height
  {
    for i := 0 to |t|
      invariant forall j :: 0 <= j < i ==> t[j].height != height
    {
      if t[i].height == height {
        return Some(i);
      }
    }
    return None;
  }

  /** Looks height by height for the first checkpoint on the way from one height to another, both included. */
  method FindFirst(t: seq<Checkpoint>, from: nat, to: nat) returns (k: Option<nat>)
    ensures k.Some? ==> k.value < |t|
    ensures k.Some? && from <= to ==>
              && from <= t[k.value].height <= to
              && forall i :: 0 <= i < |t| && from <= t[i].height ==> t[k.value].height <= t[i].height
    ensures k.Some? && to < from ==>
              && to <= t[k.value].height <= from
              && forall i :: 0 <= i < |t| && t[i].height <= from ==> t[i].height <= t[k.value].height
    ensures k.None? ==>
              forall i :: 0 <= i < |t| ==> !(from <= t[i].height <= to) && !(to <= t[i].height <= from)
  {
    var height := from;
    while height != to
      invariant from <= to ==> from <= height <= to
      invariant to < from ==> to <= height <= from
      invariant forall i :: 0 <= i < |t| ==> !(from <= t[i].height < height) && !(height < t[i].height <= from)
      decreases if from <= to then to - height else height - to
    {
      k := FindAt(t, height);
      if k.Some? {
        return;
      }
      height := if to >= from then height + 1 else height - 1;
    }
    k := FindAt(t, to);
  }

  /** Follows the table's order from a place on, in either direction. */
  method WalkUp(t: seq<Checkpoint>, k: nat, lo: nat, hi: nat, limit: nat) returns (r: seq<Checkpoint>)
    requires k < |t| && lo <= t[k].height <= hi
    ensures r == First(Upward(t, k, lo, hi), limit)
  {
    r := [t[k]];
    var i := k + 1;
    while i < |t| && (limit == 0 || |r| < limit)
      invariant k < i <= |t| && |r| >= 1 && (limit != 0 ==> |r| <= limit)
      invariant r + Upward(t, i, lo, hi) == Upward(t, k, lo, hi)
    {
      var step := if lo <= t[i].height <= hi then [t[i]] else [];
      assert r + step + Upward(t, i + 1, lo, hi) == r + Upward(t, i, lo, hi);
      r := r + step;
      i := i + 1;
    }
    FirstOfConcat(r, Upward(t, i, lo, hi), limit);
  }

  method WalkDown(t: seq<Checkpoint>, k: nat, lo: nat, hi: nat, limit: nat) returns (r: seq<Checkpoint>)
    requires k < |t| && lo <= t[k].height <= hi
    ensures r == First(Downward(t, k + 1, lo, hi), limit)
  {
    r := [t[k]];
    var i := k;
    while i > 0 && (limit == 0 || |r| < limit)
      invariant 0 <= i <= k && |r| >= 1 && (limit != 0 ==> |r| <= limit)
      invariant r + Downward(t, i, lo, hi) == Downward(t, k + 1, lo, hi)
    {
      i := i - 1;
      var step := if lo <= t[i].height <= hi then [t[i]] else [];
      assert r + step + Downward(t, i, lo, hi) == r + Downward(t, i + 1, lo, hi);
      r := r + step;
    }
    FirstOfConcat(r, Downward(t, i, lo, hi), limit);
  }

  lemma {:induction false} FirstOfConcat(r: seq<Checkpoint>, rest: seq<Checkpoint>, limit: nat)
    requires limit != 0 ==> |r| <= limit
    requires rest == [] || (limit != 0 && |r| == limit)
    ensures r == First(r + rest, limit)
  {
    if rest == [] {
      assert r + rest == r;
    }
  }

  method GetCheckpointsRange(t: seq<Checkpoint>, start: nat, end: nat, limit: nat) returns (r: seq<Checkpoint>)
    requires Sorted(t)
    ensures r == Range(t, start, end, limit)
  {
    if t == [] {
      return [];
    }
    var bottom, top := t[0].height, t[|t| - 1].height;
    var from, to := Clamp(start, bottom, top), Clamp(end, bottom, top);
    var k := FindFirst(t, from, to);
    if k.None? {
      // Every place is outside the range.
      if to >= from {
        NothingUpward(t, 0, from, to);
      } else {
        NothingDownward(t, |t|, to, from);
      }
      return [];
    }
    if to >= from {
      r := WalkUp(t, k.value, from, to, limit);
      SkipBelow(t, 0, k.value, from, to);
    } else {
      r := WalkDown(t, k.value, to, from, limit);
      SkipAbove(t, |t|, k.value + 1, to, from);
    }
  }

  lemma {:induction false} NothingUpward(t: seq<Checkpoint>, i: nat, lo: nat, hi: nat)
    requires i <= |t| && forall j :: 0 <= j < |t| ==> !(lo <= t[j].height <= hi)
    ensures Upward(t, i, lo, hi) == []
    decreases |t| - i
  {
    if i < |t| {
      NothingUpward(t, i + 1, lo, hi);
    }
  }

  lemma {:induction false} NothingDownward(t: seq<Checkpoint>, i: nat, lo: nat, hi: nat)
    requires i <= |t| && forall j :: 0 <= j < |t| ==> !(lo <= t[j].height <= hi)
    ensures Downward(t, i, lo, hi) == []
  {
    if i > 0 {
      NothingDownward(t, i - 1, lo, hi);
    }
  }

  /** A height in the range, or the end of the table closest to a range beside it. */
  predicate InRange(t: seq<Checkpoint>, start: nat, end: nat, height: nat)
    requires t != []
  {
    var bottom, top := t[0].height, t[|t| - 1].height;
    || start <= height <= end
    || end <= height <= start
    || (start < bottom && end < bottom && height == bottom)
    || (top < start && top < end && height == top)
  }

  /** The range holds what is asked for. */
  lemma {:induction false} RangeMembers(t: seq<Checkpoint>, start: nat, end: nat, c: Checkpoint)
    requires Sorted(t) && t != []
    ensures c in Range(t, start, end, 0) <==> c in t && InRange(t, start, end, c.height)
  {
    hide Upward, Downward;
    var bottom, top := t[0].height, t[|t| - 1].height;
    var from, to := Clamp(start, bottom, top), Clamp(end, bottom, top);
    UpwardMeans(t, 0, from, to);
    DownwardMeans(t, |t|, to, from);
    assert t[0..] == t && t[..|t|] == t;
    WithinTable(t, c);
    if c in t {
      ClampedRange(bottom, top, start, end, c.height);
    }
  }

  lemma {:induction false} WithinTable(t: seq<Checkpoint>, c: Checkpoint)
    requires Sorted(t) && t != []
    ensures c in t ==> t[0].height <= c.height <= t[|t| - 1].height
  {
  }

  lemma {:induction false} ClampedRange(bottom: nat, top: nat, start: nat, end: nat, height: nat)
    requires bottom <= height <= top
    ensures var from, to := Clamp(start, bottom, top), Clamp(end, bottom, top);
            (from <= height <= to || to <= height <= from) <==>
            || start <= height <= end
            || end <= height <= start
            || (start < bottom && end < bottom && height == bottom)
            || (top < start && top < end && height == top)
  {
  }

  /** In the direction asked for, each checkpoint once. */
  lemma {:induction false} RangeOrder(t: seq<Checkpoint>, start: nat, end: nat, i: nat, j: nat)
    requires Sorted(t) && i < j < |Range(t, start, end, 0)|
    ensures var r := Range(t, start, end, 0);
            if start <= end then r[i].height < r[j].height else r[j].height < r[i].height
  {
    hide Upward, Downward;
    var bottom, top := t[0].height, t[|t| - 1].height;
    var from, to := Clamp(start, bottom, top), Clamp(end, bottom, top);
    UpwardMeans(t, 0, from, to);
    DownwardMeans(t, |t|, to, from);
  }

  lemma {:induction false} UpwardMeans(t: seq<Checkpoint>, i: nat, lo: nat, hi: nat)
    requires Sorted(t) && i <= |t|
    ensures forall c :: c in Upward(t, i, lo, hi) <==> c in t[i..] && lo <= c.height <= hi
    ensures Sorted(Upward(t, i, lo, hi))
    decreases |t| - i
  {
    if i < |t| {
      UpwardMeans(t, i + 1, lo, hi);
      assert t[i..] == [t[i]] + t[i + 1..];
    }
  }

  lemma {:induction false} DownwardMeans(t: seq<Checkpoint>, i: nat, lo: nat, hi: nat)
    requires Sorted(t) && i <= |t|
    ensures var r := Downward(t, i, lo, hi);
            && (forall c :: c in r <==> c in t[..i] && lo <= c.height <= hi)
            && forall a, b :: 0 <= a < b < |r| ==> r[b].height < r[a].height
  {
    if i > 0 {
      DownwardMeans(t, i - 1, lo, hi);
      assert t[..i] == t[..i - 1] + [t[i - 1]];
    }
  }

  /** A limit keeps the first ones. */
  lemma {:induction false} RangeLimit(t: seq<Checkpoint>, start: nat, end: nat, limit: nat)
    ensures Range(t, start, end, limit) <= Range(t, start, end, 0)
    ensures |Range(t, start, end, limit)| ==
            if 0 < limit < |Range(t, start, end, 0)| then limit else |Range(t, start, end, 0)|
  {
  }

  // ---------- the immutable checkpoint ----------

  /** The checkpoints that make a chain final: a service node checkpoint needs another one on top of it. */
  const NUM_CHECKPOINTS := 2

  function Immutable(t: seq<Checkpoint>, height: nat): Option<Checkpoint> {
    var found := Range(t, height, 0, NUM_CHECKPOINTS);
    if found == [] then None
    else if found[0].Type() != ServiceNode then Some(found[0])
    else if |found| == NUM_CHECKPOINTS then Some(found[1])
    else None
  }

  method GetImmutableCheckpoint(t: seq<Checkpoint>, height: nat) returns (r: Option<Checkpoint>)
    requires Sorted(t)
    ensures r == Immutable(t, height)
    ensures IsHighestFinal(t, height, r) <==> !BelowHardcoded(t, height)
    ensures BelowHardcoded(t, height) ==> r == Some(t[0])
  {
    hide Range, IsHighestFinal, BelowHardcoded;
    ImmutableIsHighestFinal(t, height);
    var found := GetCheckpointsRange(t, height, 0, NUM_CHECKPOINTS);
    if found == [] {
      return None;
    }
    if found[0].Type() != ServiceNode {
      return Some(found[0]);
    } else if |found| == NUM_CHECKPOINTS {
      return Some(found[1]);
    } else {
      return None;
    }
  }

  /** Place `i` holds a checkpoint at or below the height that is hard-coded or has another one above it. */
  ghost predicate Final(t: seq<Checkpoint>, i: nat, height: nat)
    requires i < |t|
  {
    && t[i].height <= height
    && (t[i].Type() == Hardcoded || exists j :: 0 <= j < |t| && t[i].height < t[j].height <= height)
  }

  /** The answer is the highest final checkpoint, and nothing only when there is none. */
  ghost predicate IsHighestFinal(t: seq<Checkpoint>, height: nat, r: Option<Checkpoint>) {
    match r
    case None => forall i :: 0 <= i < |t| ==> !Final(t, i, height)
    case Some(c) =>
      exists i :: 0 <= i < |t| && t[i] == c && Final(t, i, height)
                  && forall j :: 0 <= j < |t| && Final(t, j, height) ==> t[j].height <= t[i].height
  }

  /** The place of the highest checkpoint at or below a height, or the first place. */
  function Closest(t: seq<Checkpoint>, height: nat): (k: nat)
    requires t != []
    ensures k < |t|
    ensures k > 0 ==> t[k].height <= height
    ensures forall i :: k < i < |t| ==> height < t[i].height
  {
    if |t| == 1 || t[|t| - 1].height <= height then |t| - 1
    else Closest(t[..|t| - 1], height)
  }

  lemma {:induction false} RangeIsClosest(t: seq<Checkpoint>, height: nat)
    requires Sorted(t) && t != []
    ensures var k := Closest(t, height);
            Range(t, height, 0, 2) == if k == 0 then [t[0]] else [t[k], t[k - 1]]
  {
    var k := Closest(t, height);
    var bottom, top := t[0].height, t[|t| - 1].height;
    var from := Clamp(height, bottom, top);
    assert Clamp(0, bottom, top) == bottom;
    if from == bottom {
      RangeAtBottom(t, k, height);
    } else {
      RangeAboveBottom(t, k, from);
    }
  }

  lemma {:induction false} RangeAtBottom(t: seq<Checkpoint>, k: nat, height: nat)
    requires Sorted(t) && t != [] && k == Closest(t, height)
    requires Clamp(height, t[0].height, t[|t| - 1].height) == t[0].height
    ensures k == 0 && Upward(t, 0, t[0].height, t[0].height) == [t[0]]
  {
    NothingAbove(t, 1);
  }

  lemma {:induction false} NothingAbove(t: seq<Checkpoint>, i: nat)
    requires Sorted(t) && 1 <= i <= |t|
    ensures Upward(t, i, t[0].height, t[0].height) == []
    decreases |t| - i
  {
    if i < |t| {
      NothingAbove(t, i + 1);
    }
  }

  lemma {:induction false} RangeAboveBottom(t: seq<Checkpoint>, k: nat, from: nat)
    requires Sorted(t) && t != [] && k < |t|
    requires t[0].height < from && (k > 0 ==> t[k].height <= from) && forall i :: k < i < |t| ==> from < t[i].height
    ensures First(Downward(t, |t|, t[0].height, from), 2) == if k == 0 then [t[0]] else [t[k], t[k - 1]]
  {
    var lo := t[0].height;
    SkipAbove(t, |t|, k + 1, lo, from);
    assert Downward(t, k + 1, lo, from) == [t[k]] + Downward(t, k, lo, from);
    if k > 0 {
      assert lo <= t[k - 1].height < t[k].height;
      assert Downward(t, k, lo, from) == [t[k - 1]] + Downward(t, k - 1, lo, from);
    }
  }

  /** The choice in terms of the closest checkpoint. */
  lemma {:induction false} ImmutableByPlace(t: seq<Checkpoint>, height: nat)
    requires Sorted(t)
    ensures t == [] ==> Immutable(t, height) == None
    ensures t != [] ==>
              var k := Closest(t, height);
              Immutable(t, height) ==
                if t[k].Type() == Hardcoded then Some(t[k]) else if k > 0 then Some(t[k - 1]) else None
  {
    if t != [] {
      RangeIsClosest(t, height);
    }
  }

  /** A height below all checkpoints, the lowest of which is hard-coded. */
  predicate BelowHardcoded(t: seq<Checkpoint>, height: nat) {
    t != [] && height < t[0].height && t[0].Type() == Hardcoded
  }

  /**
   The code finds the highest final checkpoint for exactly the heights that are not below a lowest,
   hard-coded checkpoint; there it answers with that checkpoint, which lies above the height.
   */
  lemma {:induction false} ImmutableIsHighestFinal(t: seq<Checkpoint>, height: nat)
    requires Sorted(t)
    ensures IsHighestFinal(t, height, Immutable(t, height)) <==> !BelowHardcoded(t, height)
    ensures BelowHardcoded(t, height) ==> Immutable(t, height) == Some(t[0])
  {
    hide Immutable;
    ImmutableByPlace(t, height);
    if t != [] {
      var k := Closest(t, height);
      if height < t[0].height {
        assert k == 0;
        assert forall i :: 0 <= i < |t| ==> !Final(t, i, height);
      } else if t[k].Type() == Hardcoded {
        assert Final(t, k, height);
      } else {
        assert !Final(t, k, height);
        if k > 0 {
          assert t[k - 1].height < t[k].height <= height;
          assert Final(t, k - 1, height);
          HighestBelow(t, k, height);
        }
      }
    }
  }

  lemma {:induction false} HighestBelow(t: seq<Checkpoint>, k: nat, height: nat)
    requires Sorted(t) && 0 < k < |t| && forall i :: k < i < |t| ==> height < t[i].height
    requires !Final(t, k, height)
    ensures forall j :: 0 <= j < |t| && Final(t, j, height) ==> t[j].height <= t[k - 1].height
  {
    forall j | 0 <= j < |t| && Final(t, j, height)
      ensures t[j].height <= t[k - 1].height
    {
      if j < k - 1 {
        assert t[j].height < t[k - 1].height;
      }
    }
  }

  /** Height 3 is below the only checkpoint, at 10, and yet gets it. */
  lemma {:induction false} CheckpointAboveTheHeight()
    ensures Immutable([Checkpoint(10, 0, 0)], 3) == Some(Checkpoint(10, 0, 0))
    ensures !IsHighestFinal([Checkpoint(10, 0, 0)], 3, Immutable([Checkpoint(10, 0, 0)], 3))
  {
    ImmutableIsHighestFinal([Checkpoint(10, 0, 0)], 3);
  }

  // ---------- monotonicity ----------

  /** The height of an answer, -1 for none. */
  function HeightOf(c: Option<Checkpoint>): int {
    if c.Some? then c.value.height else -1
  }

  lemma {:induction false} ClosestGrows(t: seq<Checkpoint>, h1: nat, h2: nat)
    requires Sorted(t) && t != [] && h1 <= h2
    ensures Closest(t, h1) <= Closest(t, h2)
  {
  }

  /** The immutable checkpoint never moves down as the height grows. */
  lemma {:induction false} ImmutableGrowsWithHeight(t: seq<Checkpoint>, h1: nat, h2: nat)
    requires Sorted(t) && h1 <= h2
    ensures HeightOf(Immutable(t, h1)) <= HeightOf(Immutable(t, h2))
  {
    hide Immutable;
    ImmutableByPlace(t, h1);
    ImmutableByPlace(t, h2);
    if t != [] {
      ClosestGrows(t, h1, h2);
      var i, j := Closest(t, h1), Closest(t, h2);
      if i < j {
        assert t[i].height <= t[j - 1].height;
      }
    }
  }

  /** The number of checkpoints below a height. */
  function PlaceFor(t: seq<Checkpoint>, height: nat): (k: nat)
    ensures k <= |t|
    ensures forall i :: 0 <= i < k ==> t[i].height < height
    ensures k < |t| ==> height <= t[k].height
  {
    if t == [] || height <= t[0].height then 0 else 1 + PlaceFor(t[1..], height)
  }

  /** Puts a checkpoint into the table, over the one at its height if there is one. */
  function Update(t: seq<Checkpoint>, c: Checkpoint): seq<Checkpoint> {
    var k := PlaceFor(t, c.height);
    t[..k] + [c] + (if k < |t| && t[k].height == c.height then t[k + 1..] else t[k..])
  }

  /** Afterwards the table holds the checkpoint at its height and is the same at every other height. */
  lemma {:induction false} UpdateContents(t: seq<Checkpoint>, c: Checkpoint, x: Checkpoint)
    requires Sorted(t)
    ensures x in Update(t, c) <==> x == c || (x in t && x.height != c.height)
  {
    hide PlaceFor;
    var k := PlaceFor(t, c.height);
    var below, above := t[..k], if k < |t| && t[k].height == c.height then t[k + 1..] else t[k..];
    assert x in below ==> x.height < c.height;
    assert x in above ==> c.height < x.height;
    if x in t && x.height != c.height {
      InPart(t, k, x);
      if k < |t| {
        assert t[k..] == [t[k]] + t[k + 1..];
      }
    } else if x in below || x in above {
      InPart(t, k, x);
    }
  }

  lemma {:induction false} InPart(t: seq<Checkpoint>, k: nat, x: Checkpoint)
    requires k <= |t|
    ensures x in t <==> x in t[..k] || x in t[k..]
  {
    assert t == t[..k] + t[k..];
  }

  lemma {:induction false} UpdateSorted(t: seq<Checkpoint>, c: Checkpoint)
    requires Sorted(t)
    ensures Sorted(Update(t, c))
  {
    hide PlaceFor;
    var k := PlaceFor(t, c.height);
    assert forall i :: k < i < |t| ==> t[k].height < t[i].height;
  }

  /** A table with one more checkpoint, at place `p`. */
  ghost predicate Inserted(t: seq<Checkpoint>, u: seq<Checkpoint>, p: nat) {
    && p <= |t| && |u| == |t| + 1
    && (forall i :: 0 <= i < p ==> u[i] == t[i])
    && (forall i :: p < i < |u| ==> u[i] == t[i - 1])
  }

  /** A table with another checkpoint of the same height at place `p`. */
  ghost predicate Replaced(t: seq<Checkpoint>, u: seq<Checkpoint>, p: nat) {
    && p < |t| == |u| && u[p].height == t[p].height
    && forall i :: 0 <= i < |u| && i != p ==> u[i] == t[i]
  }

  lemma {:induction false} ClosestIs(t: seq<Checkpoint>, height: nat, k: nat)
    requires Sorted(t) && k < |t|
    requires (k == 0 || t[k].height <= height) && (k + 1 < |t| ==> height < t[k + 1].height)
    ensures Closest(t, height) == k
  {
  }

  lemma {:induction false} ClosestAfterInsert(t: seq<Checkpoint>, u: seq<Checkpoint>, p: nat, height: nat)
    requires Sorted(t) && Sorted(u) && t != [] && Inserted(t, u, p)
    ensures Closest(u, height) ==
            if (if p == 0 then t[0].height else u[p].height) <= height then Closest(t, height) + 1 else Closest(t, height)
  {
    hide Closest;
    var k := Closest(t, height);
    if (if p == 0 then t[0].height else u[p].height) <= height {
      if k == 0 && p > 0 {
        assert u[0] == t[0] && u[0].height < u[p].height;
      }
      if p == 0 {
        assert u[1] == t[0] && u[0].height < u[1].height;
      }
      InsertBelow(t, u, p, height, k);
    } else {
      if p == 0 {
        assert u[1] == t[0];
      }
      InsertAbove(t, u, p, height, k);
    }
  }

  lemma {:induction false} InsertBelow(t: seq<Checkpoint>, u: seq<Checkpoint>, p: nat, height: nat, k: nat)
    requires Sorted(t) && Sorted(u) && t != [] && Inserted(t, u, p) && k == Closest(t, height)
    requires t[0].height <= height && u[p].height <= height
    ensures Closest(u, height) == k + 1
  {
    hide Closest;
    assert p <= k + 1;
    if p <= k {
      assert u[k + 1] == t[k];
    }
    if k + 2 < |u| {
      assert u[k + 2] == t[k + 1];
    }
    ClosestIs(u, height, k + 1);
  }

  lemma {:induction false} InsertAbove(t: seq<Checkpoint>, u: seq<Checkpoint>, p: nat, height: nat, k: nat)
    requires Sorted(t) && Sorted(u) && t != [] && Inserted(t, u, p) && k == Closest(t, height)
    requires if p == 0 then height < t[0].height else height < u[p].height
    ensures Closest(u, height) == k && (p == 0 ==> k == 0)
  {
    hide Closest;
    if p == 0 {
      assert k == 0 && u[1] == t[0];
    } else {
      assert k >= p ==> u[k + 1] == t[k];
      assert k < p && u[k] == t[k];
      if k + 1 < p {
        assert u[k + 1] == t[k + 1];
      }
    }
    ClosestIs(u, height, k);
  }

  lemma {:induction false} GrowsAfterInsert(t: seq<Checkpoint>, u: seq<Checkpoint>, p: nat, height: nat)
    requires Sorted(t) && Sorted(u) && Inserted(t, u, p)
    ensures HeightOf(Immutable(t, height)) <= HeightOf(Immutable(u, height)) <==> !(BelowHardcoded(t, height) && p == 0)
  {
    hide Immutable, Closest;
    ImmutableByPlace(t, height);
    ImmutableByPlace(u, height);
    if t != [] {
      var k := Closest(t, height);
      ClosestAfterInsert(t, u, p, height);
      if (if p == 0 then t[0].height else u[p].height) <= height {
        GrowsBelow(t, u, p, height, k);
      } else {
        if p == 0 {
          assert k == 0 && u[1] == t[0] && u[0].height < u[1].height;
        } else {
          InsertAbove(t, u, p, height, k);
          SamePlaces(t, u, p, height, k);
        }
      }
    }
  }

  /** What the answer is chosen from is the same when a checkpoint is put in above the height. */
  lemma {:induction false} SamePlaces(t: seq<Checkpoint>, u: seq<Checkpoint>, p: nat, height: nat, k: nat)
    requires Sorted(u) && Inserted(t, u, p) && p > 0 && k < |t| && height < u[p].height
    requires k > 0 ==> u[k].height <= height
    ensures u[k] == t[k] && (k > 0 ==> u[k - 1] == t[k - 1])
  {
    assert k < p;
  }

  /** Below the height, the new closest checkpoint or the one before it is at least the old one. */
  lemma {:induction false} GrowsBelow(t: seq<Checkpoint>, u: seq<Checkpoint>, p: nat, height: nat, k: nat)
    requires Sorted(t) && Sorted(u) && t != [] && Inserted(t, u, p)
    requires k == Closest(t, height) && k + 1 == Closest(u, height) && t[0].height <= height
    ensures HeightOf(Immutable(t, height)) <= HeightOf(Immutable(u, height))
  {
    hide Immutable, Closest;
    ImmutableByPlace(t, height);
    ImmutableByPlace(u, height);
    if p <= k {
      assert u[k + 1] == t[k];
      assert k > 0 && p < k ==> u[k] == t[k - 1];
      assert k > 0 && p == k ==> u[k - 1] == t[k - 1] && u[k - 1].height < u[k].height;
    } else {
      assert u[k] == t[k];
      assert u[k].height < u[k + 1].height;
    }
  }

  lemma {:induction false} UpdateInserts(t: seq<Checkpoint>, c: Checkpoint)
    requires Sorted(t) && forall i :: 0 <= i < |t| ==> t[i].height != c.height
    ensures Sorted(Update(t, c)) && Inserted(t, Update(t, c), PlaceFor(t, c.height))
  {
    UpdateSorted(t, c);
  }

  lemma {:induction false} UpdateReplaces(t: seq<Checkpoint>, c: Checkpoint, p: nat)
    requires Sorted(t) && p < |t| && t[p].height == c.height
    ensures Sorted(Update(t, c)) && Replaced(t, Update(t, c), p) && Update(t, c)[p] == c
  {
    UpdateSorted(t, c);
    var k := PlaceFor(t, c.height);
    assert k == p;
  }

  /**
   Putting in a checkpoint at a new height moves no answer down, except below a lowest, hard-coded
   checkpoint when the new one becomes the lowest.
   */
  lemma {:induction false} ImmutableGrowsWithInsert(t: seq<Checkpoint>, c: Checkpoint, height: nat)
    requires Sorted(t) && forall i :: 0 <= i < |t| ==> t[i].height != c.height
    ensures HeightOf(Immutable(t, height)) <= HeightOf(Immutable(Update(t, c), height)) <==>
            !(BelowHardcoded(t, height) && c.height < t[0].height)
  {
    hide Immutable, Update, Inserted;
    UpdateInserts(t, c);
    GrowsAfterInsert(t, Update(t, c), PlaceFor(t, c.height), height);
  }

  /**
   Putting one over another moves an answer down exactly when a service node checkpoint replaces the
   hard-coded checkpoint closest to the height.
   */
  lemma {:induction false} ImmutableAfterOverwrite(t: seq<Checkpoint>, c: Checkpoint, height: nat, p: nat)
    requires Sorted(t) && p < |t| && t[p].height == c.height
    ensures HeightOf(Immutable(t, height)) <= HeightOf(Immutable(Update(t, c), height)) <==>
            !(p == Closest(t, height) && t[p].Type() == Hardcoded && c.Type() == ServiceNode)
  {
    hide Immutable, Update, Closest;
    UpdateReplaces(t, c, p);
    var k, u := Closest(t, height), Update(t, c);
    assert u[k].height == t[k].height;
    assert k + 1 < |u| ==> u[k + 1].height == t[k + 1].height;
    ClosestIs(u, height, k);
    ImmutableByPlace(t, height);
    ImmutableByPlace(u, height);
    assert k > 0 ==> u[k - 1].height == t[k - 1].height < t[k].height;
  }

  /** A service node checkpoint put in below takes the answer away from the heights in between. */
  lemma {:induction false} InsertLowersAnswer()
    ensures Immutable([Checkpoint(10, 0, 0)], 7) == Some(Checkpoint(10, 0, 0))
    ensures Immutable(Update([Checkpoint(10, 0, 0)], Checkpoint(5, 0, 1)), 7) == None
  {
    var t, c := [Checkpoint(10, 0, 0)], Checkpoint(5, 0, 1);
    ImmutableByPlace(t, 7);
    var u := Update(t, c);
    assert u == [c, Checkpoint(10, 0, 0)];
    ClosestIs(u, 7, 0);
    ImmutableByPlace(u, 7);
  }

  /** A service node checkpoint put over a hard-coded one takes the answer away at its height. */
  lemma {:induction false} OverwriteLowersAnswer()
    ensures Immutable([Checkpoint(10, 0, 0)], 10) == Some(Checkpoint(10, 0, 0))
    ensures Immutable(Update([Checkpoint(10, 0, 0)], Checkpoint(10, 0, 1)), 10) == None
  {
    var t, c := [Checkpoint(10, 0, 0)], Checkpoint(10, 0, 1);
    ImmutableByPlace(t, 10);
    var u := Update(t, c);
    assert u == [c];
    ImmutableByPlace(u, 10);
  }
}
