/**
 The order in which codeword bits are laid into the grid: column pairs from right to left,
 alternately upward and downward, stepping over the vertical timing column 6.
 */
module Zigzag {
  import opened Grids
  import opened Bits

  /** The right column of the `p`-th pair. */
  function Right(size: nat, p: nat): int {
    var r := size - 1 - 2 * p;
    if r <= 6 then r - 1 else r
  }

  predicate Upward(right: int) {
    (right + 1) / 2 % 2 == 0
  }

  /** The scan changes direction at every pair, also where it jumps over column 6. */
  lemma {:induction false} DirectionAlternates(size: nat, p: nat)
    requires size % 4 == 1
    ensures Upward(Right(size, p)) <==> p % 2 == 0
  {
  }

  /** The position of step `t` in a pair of columns. */
  function Step(size: nat, right: int, t: nat): Pos {
    var vert := t / 2;
    Pos(right - t % 2, if Upward(right) then size - 1 - vert else vert)
  }

  /** The positions of one pair of columns, in order. */
  function PairScan(size: nat, right: int): (path: seq<Pos>)
    ensures |path| == 2 * size
  {
    seq(2 * size, t requires 0 <= t < 2 * size => Step(size, right, t))
  }

  /** The positions of the first `p` pairs of columns, in order. */
  function Scan(size: nat, p: nat): seq<Pos> {
    if p == 0 then [] else Scan(size, p - 1) + PairScan(size, Right(size, p - 1))
  }

  function NumPairs(size: nat): nat
    requires size >= 1
  {
    (size - 1) / 2
  }

  function FullScan(size: nat): seq<Pos>
    requires size >= 1
  {
    Scan(size, NumPairs(size))
  }

  /** The leftmost column among the first `p` pairs. */
  function LeftEdge(size: nat, p: nat): int {
    if p == 0 then size else Right(size, p - 1) - 1
  }

  lemma {:induction false} PairScanMembers(size: nat, right: int, q: Pos)
    ensures q in PairScan(size, right) <==> (right - 1 <= q.x <= right && 0 <= q.y < size)
  {
    if right - 1 <= q.x <= right && 0 <= q.y < size {
      var t := 2 * (if Upward(right) then size - 1 - q.y else q.y) + right - q.x;
      assert PairScan(size, right)[t] == q;
    }
  }

  /** The first `p` pairs cover exactly the columns from the left edge on, except column 6. */
  lemma {:induction false} ScanMembers(size: nat, p: nat, q: Pos)
    requires size % 2 == 1 && size > 8 && p <= NumPairs(size)
    ensures q in Scan(size, p) <==> (LeftEdge(size, p) <= q.x < size && q.x != 6 && 0 <= q.y < size)
  {
    if p != 0 {
      ScanMembers(size, p - 1, q);
      PairScanMembers(size, Right(size, p - 1), q);
    }
  }

  lemma {:induction false} ScanNoRepeats(size: nat, p: nat)
    requires size % 2 == 1 && size > 8 && p <= NumPairs(size)
    ensures NoRepeats(Scan(size, p))
  {
    if p != 0 {
      ScanNoRepeats(size, p - 1);
      var a, b := Scan(size, p - 1), PairScan(size, Right(size, p - 1));
      PairNoRepeats(size, Right(size, p - 1));
      forall i, j | 0 <= i < |a| && 0 <= j < |b| ensures a[i] != b[j] {
        ScanMembers(size, p - 1, a[i]);
        PairScanMembers(size, Right(size, p - 1), b[j]);
      }
      AppendNoRepeats(a, b);
    }
  }

  lemma {:induction false} PairNoRepeats(size: nat, right: int)
    ensures NoRepeats(PairScan(size, right))
  {
  }

  lemma {:induction false} AppendNoRepeats(a: seq<Pos>, b: seq<Pos>)
    requires NoRepeats(a) && NoRepeats(b)
    requires forall i, j :: 0 <= i < |a| && 0 <= j < |b| ==> a[i] != b[j]
    ensures NoRepeats(a + b)
  {
  }

  /** The scan visits every module outside column 6 exactly once, and no other. */
  lemma {:induction false} ScanIsExact(size: nat)
    requires size % 2 == 1 && size > 8
    ensures NoRepeats(FullScan(size))
    ensures forall q :: q in FullScan(size) <==> (Inside(q, size) && q.x != 6)
  {
    ScanNoRepeats(size, NumPairs(size));
    forall q ensures q in FullScan(size) <==> (Inside(q, size) && q.x != 6) {
      ScanMembers(size, NumPairs(size), q);
    }
  }

  // ---------- the order of the scan ----------

  lemma {:induction false} ScanIndex(size: nat, n: nat, p: nat, t: nat)
    requires p < n && t < 2 * size
    ensures |Scan(size, n)| == 2 * size * n && 2 * size * p + t < 2 * size * n
    ensures Scan(size, n)[2 * size * p + t] == Step(size, Right(size, p), t)
  {
    hide Step, Right;
    ScanLength(size, n);
    ScanLength(size, n - 1);
    PairPlaces(size, p, t, n);
    if p < n - 1 {
      PairPlaces(size, p, t, n - 1);
      ScanIndex(size, n - 1, p, t);
    }
  }

  lemma {:induction false} ScanLength(size: nat, n: nat)
    ensures |Scan(size, n)| == 2 * size * n
  {
    hide Step, Right;
    if n != 0 {
      ScanLength(size, n - 1);
      assert 2 * size * n == 2 * size * (n - 1) + 2 * size;
    }
  }

  lemma PairPlaces(size: nat, p: nat, t: nat, n: nat)
    requires p < n && t < 2 * size
    ensures 2 * size * p + t < 2 * size * n && 2 * size * (p + 1) <= 2 * size * n
    ensures 2 * size * (p + 1) == 2 * size * p + 2 * size
  {
    assert 2 * size * n == 2 * size * (p + 1) + 2 * size * (n - p - 1);
  }

  /** Where step `t` of the `p`-th pair of columns is in the whole scan. */
  function InScan(size: nat, p: nat, t: nat): (q: Pos)
    requires size >= 1 && p < NumPairs(size) && t < 2 * size
  {
    ScanIndex(size, NumPairs(size), p, t);
    FullScan(size)[2 * size * p + t]
  }

  /** The scan has as many steps as the pairs of columns have modules, and starts in the bottom right corner. */
  lemma {:induction false} ScanStarts(size: nat)
    requires size % 4 == 1 && size > 8
    ensures |FullScan(size)| == 2 * size * NumPairs(size) && InScan(size, 0, 0) == Pos(size - 1, size - 1)
  {
    hide Scan;
    ScanIndex(size, NumPairs(size), 0, 0);
    DirectionAlternates(size, 0);
  }

  /** Within a pair: first the right module of a row, then the left, then on, up in even pairs and down in odd ones. */
  lemma {:induction false} ScanGoesOn(size: nat, p: nat, t: nat)
    requires size % 4 == 1 && size > 8 && p < NumPairs(size) && t < 2 * size
    ensures t % 2 == 0 ==> InScan(size, p, t + 1) == Pos(InScan(size, p, t).x - 1, InScan(size, p, t).y)
    ensures t + 2 < 2 * size ==>
              InScan(size, p, t + 2) ==
                Pos(InScan(size, p, t).x, if p % 2 == 0 then InScan(size, p, t).y - 1 else InScan(size, p, t).y + 1)
  {
    hide Scan, Right;
    ScanIndex(size, NumPairs(size), p, t);
    DirectionAlternates(size, p);
    if t % 2 == 0 {
      ScanIndex(size, NumPairs(size), p, t + 1);
    }
    if t + 2 < 2 * size {
      ScanIndex(size, NumPairs(size), p, t + 2);
    }
  }

  /** The next pair starts in the row where the last one ended, two columns to the left, or three across column 6. */
  lemma {:induction false} ScanTurns(size: nat, p: nat)
    requires size % 4 == 1 && size > 8 && p + 1 < NumPairs(size)
    ensures var last, next := InScan(size, p, 2 * size - 2), InScan(size, p + 1, 0);
            next.y == last.y && next.x == last.x - (if last.x - 2 <= 6 < last.x then 3 else 2)
  {
    hide Scan, Upward, Right;
    ScanIndex(size, NumPairs(size), p, 2 * size - 2);
    ScanIndex(size, NumPairs(size), p + 1, 0);
    DirectionAlternates(size, p);
    DirectionAlternates(size, p + 1);
    NextRight(size, p);
    assert (p + 1) % 2 == 1 - p % 2 && (2 * size - 2) % 2 == 0 && (2 * size - 2) / 2 == size - 1;
  }

  lemma {:induction false} NextRight(size: nat, p: nat)
    requires size % 2 == 1
    ensures var r := Right(size, p); Right(size, p + 1) == r - (if r - 2 <= 6 < r then 3 else 2)
  {
  }

  // ---------- the data area ----------

  /** The positions that hold codeword bits, in scan order. */
  function DataPath(fn: Grid): (free: seq<Pos>)
    requires |fn| % 2 == 1 && |fn| > 8 && Square(fn, |fn|)
    ensures forall p :: p in free ==> Inside(p, |fn|)
  {
    ScanIsExact(|fn|);
    Free(fn, FullScan(|fn|))
  }

  lemma {:induction false} PathHasNoRepeats(fn: Grid)
    requires |fn| % 2 == 1 && |fn| > 8 && Square(fn, |fn|)
    ensures NoRepeats(DataPath(fn))
  {
    ScanIsExact(|fn|);
    FreeNoRepeats(fn, FullScan(|fn|));
  }

  /** The data path meets its modules in the order of the scan. */
  lemma {:induction false} DataPathKeepsOrder(fn: Grid, i: nat, j: nat)
    requires |fn| % 2 == 1 && |fn| > 8 && Square(fn, |fn|) && i < j < |DataPath(fn)|
    ensures exists k, l ::
              && 0 <= k < l < |FullScan(|fn|)|
              && FullScan(|fn|)[k] == DataPath(fn)[i]
              && FullScan(|fn|)[l] == DataPath(fn)[j]
  {
    hide FullScan;
    ScanIsExact(|fn|);
    FreeKeepsOrder(fn, FullScan(|fn|), i, j);
  }

  ghost function Unreserved(fn: Grid): set<Pos>
    requires Square(fn, |fn|)
  {
    set x, y | 0 <= x < |fn| && 0 <= y < |fn| && !At(fn, Pos(x, y)) :: Pos(x, y)
  }

  ghost predicate Column6Reserved(fn: Grid)
    requires Square(fn, |fn|)
  {
    forall y :: 0 <= y < |fn| && |fn| > 6 ==> At(fn, Pos(6, y))
  }

  lemma {:induction false} ElementsCount(path: seq<Pos>)
    requires NoRepeats(path)
    ensures |set p | p in path| == |path|
  {
    if path != [] {
      var n := |path| - 1;
      ElementsCount(path[..n]);
      assert path == path[..n] + [path[n]];
      assert (set p | p in path) == (set p | p in path[..n]) + {path[n]};
      assert path[n] !in (set p | p in path[..n]);
    }
  }

  /** With column 6 reserved, every unreserved module is on the data path exactly once. */
  lemma {:induction false} OnPath(fn: Grid, p: Pos)
    requires |fn| % 2 == 1 && |fn| > 8 && Square(fn, |fn|) && Column6Reserved(fn)
    ensures p in DataPath(fn) <==> p in Unreserved(fn)
  {
    ScanIsExact(|fn|);
    assert p.x == 6 ==> p == Pos(6, p.y);
  }

  lemma {:induction false} DataPathIsExact(fn: Grid)
    requires |fn| % 2 == 1 && |fn| > 8 && Square(fn, |fn|) && Column6Reserved(fn)
    ensures NoRepeats(DataPath(fn))
    ensures forall p :: p in DataPath(fn) <==> p in Unreserved(fn)
    ensures |DataPath(fn)| == |Unreserved(fn)|
  {
    hide DataPath, NoRepeats, Unreserved, Column6Reserved;
    PathHasNoRepeats(fn);
    var path := DataPath(fn);
    forall p ensures p in path <==> p in Unreserved(fn) {
      OnPath(fn, p);
    }
    ElementsCount(path);
    assert (set p | p in path) == Unreserved(fn);
  }

  // ---------- placing bit by bit ----------

  /** `g` is `g0` with bits laid along the free modules of `path` until `i` of them are placed. */
  ghost predicate PlacedAlong(g0: Grid, g: Grid, fn: Grid, bits: seq<bool>, path: seq<Pos>, i: nat) {
    && Square(g0, |g0|) && Square(fn, |g0|)
    && (forall p :: p in path ==> Inside(p, |g0|))
    && var free := Free(fn, path);
       && i == (if |free| <= |bits| then |free| else |bits|)
       && g == Place(g0, free, bits, i)
  }

  lemma {:induction false} PlaceStep(g0: Grid, g: Grid, fn: Grid, bits: seq<bool>, path: seq<Pos>, i: nat, p: Pos)
    requires PlacedAlong(g0, g, fn, bits, path, i) && Inside(p, |g0|)
    ensures !At(fn, p) && i < |bits| ==> PlacedAlong(g0, Set(g, p, bits[i]), fn, bits, path + [p], i + 1)
    ensures At(fn, p) || i >= |bits| ==> PlacedAlong(g0, g, fn, bits, path + [p], i)
  {
    hide Free, Set;
    FreeSnoc(fn, path, p);
    var free := Free(fn, path);
    if !At(fn, p) {
      PlacePrefix(g0, free, [p], bits, i);
    } else {
      assert Free(fn, path + [p]) == free;
    }
  }

  // ---------- codewords as bits ----------

  /** The bits of a codeword sequence, most significant first. */
  function BitsOf(data: seq<Byte>): (bits: seq<bool>)
    ensures |bits| == 8 * |data|
  {
    if data == [] then [] else BitsOf(data[..|data| - 1]) + ToBits(data[|data| - 1], 8)
  }

  /** Bit `i` of the sequence, as the placement loop picks it. */
  lemma {:induction false} BitsOfIndex(data: seq<Byte>, i: nat)
    requires i < 8 * |data|
    ensures BitsOf(data)[i] == GetBit(data[i / 8], 7 - i % 8)
  {
    var n := |data| - 1;
    if i < 8 * n {
      BitsOfIndex(data[..n], i);
    } else {
      ToBitsIndex(data[n], 8, i - 8 * n);
    }
  }

  /** The codewords a bit string denotes. */
  function BytesOf(bits: seq<bool>): (data: seq<Byte>)
    requires |bits| % 8 == 0
    ensures |data| == |bits| / 8
  {
    hide FromBits, ToBits, Pow2;
    if bits == [] then []
    else
      var n := |bits| - 8;
      ToFromBits(bits[n..]);
      ByteRange();
      BytesOf(bits[..n]) + [FromBits(bits[n..])]
  }

  lemma {:induction false} BytesOfBitsOf(data: seq<Byte>)
    ensures BytesOf(BitsOf(data)) == data
  {
    hide ToBits, FromBits, Pow2;
    if data != [] {
      var n := |data| - 1;
      BytesOfBitsOf(data[..n]);
      ByteRange();
      FromToBits(data[n], 8);
      assert BitsOf(data)[..8 * n] == BitsOf(data[..n]);
      assert BitsOf(data)[8 * n..] == ToBits(data[n], 8);
    }
  }

  lemma {:induction false} BitsOfSnoc(data: seq<Byte>, b: Byte)
    ensures BitsOf(data + [b]) == BitsOf(data) + ToBits(b, 8)
  {
    hide ToBits;
    assert (data + [b])[..|data|] == data;
  }

  lemma {:induction false} BitsOfBytesOf(bits: seq<bool>)
    requires |bits| % 8 == 0
    ensures BitsOf(BytesOf(bits)) == bits
  {
    hide ToBits, FromBits, Pow2, BitsOf;
    if bits == [] {
      assert |BitsOf(BytesOf(bits))| == 0;
    } else {
      var n := |bits| - 8;
      BitsOfBytesOf(bits[..n]);
      ByteRange();
      ToFromBits(bits[n..]);
      BitsOfSnoc(BytesOf(bits[..n]), FromBits(bits[n..]));
      assert bits == bits[..n] + bits[n..];
    }
  }
}
