/**
 How many modules the function patterns leave free: exactly `NumRawDataModules`, for every
 version.  The reserved modules are counted as disjoint products of coordinate sets.
 */
module DataArea {
  import opened Grids
  import opened PosSets
  import opened Tables
  import opened FormatInfo
  import opened Patterns
  import opened Zigzag

  // ---------- where the alignment patterns are ----------

  lemma {:induction false} StepFacts(ver: int)
    requires IsVersion(ver) && ver >= 2
    ensures 2 <= NumAlign(ver) <= 7
    ensures NumAlign(ver) >= 3 ==> AlignStep(ver) >= 16
    ensures (NumAlign(ver) - 2) * AlignStep(ver) <= 4 * ver - 8
  {
    var n := NumAlign(ver);
    assert n == 2 || n == 3 || n == 4 || n == 5 || n == 6 || n == 7;
  }

  /** The coordinates after the first lie between 18 and the last, at least 12 apart. */
  lemma {:induction false} AlignSpacing(ver: int, i: nat)
    requires IsVersion(ver) && 1 <= i < NumAlign(ver)
    ensures 18 <= AlignPos(ver, i) <= Size(ver) - 7
    ensures AlignPos(ver, i) >= AlignPos(ver, i - 1) + 12
    ensures i < NumAlign(ver) - 1 ==> AlignPos(ver, i) <= Size(ver) - 23
    ensures i == NumAlign(ver) - 1 ==> AlignPos(ver, i) == Size(ver) - 7
  {
    StepFacts(ver);
    var n, step := NumAlign(ver), AlignStep(ver);
    var k := n - 1 - i;
    if k >= 1 {
      assert k * step >= 16;
      assert k * step <= (n - 2) * step;
    }
    if i >= 2 {
      assert (k + 1) * step == k * step + step;
    }
  }

  lemma {:induction false} AlignOrdered(ver: int, i: nat, j: nat)
    requires IsVersion(ver) && i < j < NumAlign(ver)
    ensures AlignPos(ver, j) >= AlignPos(ver, i) + 12
  {
    AlignSpacing(ver, j);
    if i < j - 1 {
      AlignOrdered(ver, i, j - 1);
    }
  }

  // ---------- bands of coordinates ----------

  /** The coordinates within 2 of an alignment coordinate with index in [a, b). */
  function Band(ver: int, a: nat, b: nat): set<int>
    requires IsVersion(ver) && b <= NumAlign(ver)
  {
    if a >= b then {} else Band(ver, a, b - 1) + Span(AlignPos(ver, b - 1) - 2, AlignPos(ver, b - 1) + 3)
  }

  ghost predicate Near(ver: int, a: nat, b: nat, x: int)
    requires IsVersion(ver) && b <= NumAlign(ver)
  {
    exists i :: a <= i < b && Abs(x - AlignPos(ver, i)) <= 2
  }

  lemma {:induction false} BandMembers(ver: int, a: nat, b: nat, x: int)
    requires IsVersion(ver) && b <= NumAlign(ver)
    ensures x in Band(ver, a, b) <==> Near(ver, a, b, x)
  {
    hide AlignPos, Span;
    if a < b {
      BandMembers(ver, a, b - 1, x);
      var p := AlignPos(ver, b - 1);
      assert x in Span(p - 2, p + 3) <==> Abs(x - p) <= 2;
    }
  }

  lemma {:induction false} BandCount(ver: int, a: nat, b: nat)
    requires IsVersion(ver) && a <= b <= NumAlign(ver)
    ensures |Band(ver, a, b)| == 5 * (b - a)
  {
    hide AlignPos, Span;
    if a < b {
      BandCount(ver, a, b - 1);
      var p := AlignPos(ver, b - 1);
      var span := Span(p - 2, p + 3);
      forall x | x in Band(ver, a, b - 1) ensures x !in span {
        BandMembers(ver, a, b - 1, x);
        var i :| a <= i < b - 1 && Abs(x - AlignPos(ver, i)) <= 2;
        AlignOrdered(ver, i, b - 1);
      }
      assert Band(ver, a, b - 1) !! span;
    }
  }

  // ---------- the five kinds of reserved modules ----------

  predicate InFinder(s: int, q: Pos) {
    || (0 <= q.x < 8 && 0 <= q.y < 8)
    || (s - 8 <= q.x < s && 0 <= q.y < 8)
    || (0 <= q.x < 8 && s - 8 <= q.y < s)
  }

  /** Timing modules outside the finder patterns. */
  predicate InTiming(s: int, q: Pos) {
    (8 <= q.x < s - 8 && q.y == 6) || (q.x == 6 && 8 <= q.y < s - 8)
  }

  predicate Flank(x: int) {
    x == 4 || x == 5 || x == 7 || x == 8
  }

  /** Alignment modules outside the timing patterns. */
  ghost predicate InAlign(ver: int, q: Pos)
    requires IsVersion(ver)
  {
    var n := NumAlign(ver);
    n >= 2 &&
    (|| (Near(ver, 1, n, q.x) && Near(ver, 1, n, q.y))
     || (Flank(q.x) && Near(ver, 1, n - 1, q.y))
     || (Near(ver, 1, n - 1, q.x) && Flank(q.y)))
  }

  predicate InFormat(s: nat, q: Pos) {
    FormatIndex(s, q) != NOWHERE
  }

  predicate InVersion(ver: int, q: Pos)
    requires IsVersion(ver)
  {
    ver >= 7 && VersionIndex(Size(ver), q) != NOWHERE
  }

  ghost function FinderSet(s: int): (r: set<Pos>)
    requires s >= 21
    ensures forall q :: q in r <==> InFinder(s, q)
  {
    hide Product, Span;
    Product(Span(0, 8), Span(0, 8)) + Product(Span(s - 8, s), Span(0, 8)) + Product(Span(0, 8), Span(s - 8, s))
  }

  lemma {:induction false} FinderCount(s: int)
    requires s >= 21
    ensures |FinderSet(s)| == 192
  {
    hide Product, Span;
    var a, b, c := Product(Span(0, 8), Span(0, 8)), Product(Span(s - 8, s), Span(0, 8)), Product(Span(0, 8), Span(s - 8, s));
    ProductCount(Span(0, 8), Span(0, 8));
    ProductCount(Span(s - 8, s), Span(0, 8));
    ProductCount(Span(0, 8), Span(s - 8, s));
    assert a !! b && a + b !! c;
  }

  ghost function TimingSet(s: int): (r: set<Pos>)
    requires s >= 21
    ensures forall q :: q in r <==> InTiming(s, q)
  {
    Product(Span(8, s - 8), {6}) + Product({6}, Span(8, s - 8))
  }

  lemma {:induction false} TimingCount(s: int)
    requires s >= 21
    ensures |TimingSet(s)| == 2 * (s - 16)
  {
    hide Product, Span;
    var a, b := Product(Span(8, s - 8), {6}), Product({6}, Span(8, s - 8));
    ProductCount(Span(8, s - 8), {6});
    ProductCount({6}, Span(8, s - 8));
    assert a !! b;
  }

  /** Format modules along the top left finder pattern, and along the other two. */
  predicate InInnerFormat(q: Pos) {
    || (q.x == 8 && (0 <= q.y < 6 || 7 <= q.y < 9))
    || (q.y == 8 && (0 <= q.x < 6 || q.x == 7))
  }

  predicate InOuterFormat(s: int, q: Pos) {
    || (s - 8 <= q.x < s && q.y == 8)
    || (q.x == 8 && s - 8 <= q.y < s)
  }

  lemma {:induction false} FormatIsSplit(s: nat, q: Pos)
    requires s >= 21
    ensures InFormat(s, q) <==> InInnerFormat(q) || InOuterFormat(s, q)
    ensures !(InInnerFormat(q) && InOuterFormat(s, q))
  {
  }

  ghost function InnerFormatSet(): (r: set<Pos>)
    ensures forall q :: q in r <==> InInnerFormat(q)
  {
    hide Product, Span;
    Product({8}, Span(0, 6)) + Product({8}, Span(7, 9)) + Product(Span(0, 6), {8}) + Product({7}, {8})
  }

  lemma {:induction false} ApartProducts(a: set<int>, b: set<int>, c: set<int>, d: set<int>)
    requires a !! c || b !! d
    ensures Product(a, b) !! Product(c, d)
  {
  }

  lemma {:induction false} InnerFormatCount()
    ensures |InnerFormatSet()| == 15
  {
    hide Product, Span;
    ProductCount({8}, Span(0, 6)); ProductCount({8}, Span(7, 9));
    ProductCount(Span(0, 6), {8}); ProductCount({7}, {8});
    ApartProducts({8}, Span(0, 6), {8}, Span(7, 9));
    ApartProducts({8}, Span(0, 6), Span(0, 6), {8}); ApartProducts({8}, Span(7, 9), Span(0, 6), {8});
    ApartProducts({8}, Span(0, 6), {7}, {8}); ApartProducts({8}, Span(7, 9), {7}, {8});
    ApartProducts(Span(0, 6), {8}, {7}, {8});
  }

  ghost function OuterFormatSet(s: int): (r: set<Pos>)
    requires s >= 21
    ensures forall q :: q in r <==> InOuterFormat(s, q)
  {
    hide Product, Span;
    Product(Span(s - 8, s), {8}) + Product({8}, Span(s - 8, s))
  }

  lemma {:induction false} OuterFormatCount(s: int)
    requires s >= 21
    ensures |OuterFormatSet(s)| == 16
  {
    hide Product, Span;
    var a, b := Product(Span(s - 8, s), {8}), Product({8}, Span(s - 8, s));
    ProductCount(Span(s - 8, s), {8}); ProductCount({8}, Span(s - 8, s));
    assert a !! b;
  }

  ghost function FormatSet(s: int): set<Pos>
    requires s >= 21
  {
    InnerFormatSet() + OuterFormatSet(s)
  }

  lemma {:induction false} FormatCount(s: nat)
    requires s >= 21
    ensures |FormatSet(s)| == 31
    ensures forall q :: q in FormatSet(s) <==> InFormat(s, q)
  {
    hide InnerFormatSet, OuterFormatSet, FormatIndex;
    InnerFormatCount(); OuterFormatCount(s);
    forall q ensures q in FormatSet(s) <==> InFormat(s, q) {
      FormatIsSplit(s, q);
    }
    assert InnerFormatSet() !! OuterFormatSet(s);
  }

  ghost function VersionSet(ver: int): (r: set<Pos>)
    requires IsVersion(ver)
    ensures forall q :: q in r <==> InVersion(ver, q)
  {
    hide Product, Span;
    var s := Size(ver);
    if ver < 7 then {}
    else Product(Span(s - 11, s - 8), Span(0, 6)) + Product(Span(0, 6), Span(s - 11, s - 8))
  }

  lemma {:induction false} VersionCount(ver: int)
    requires IsVersion(ver)
    ensures |VersionSet(ver)| == if ver < 7 then 0 else 36
  {
    hide Product, Span, VersionIndex;
    var s := Size(ver);
    if ver >= 7 {
      var a, b := Product(Span(s - 11, s - 8), Span(0, 6)), Product(Span(0, 6), Span(s - 11, s - 8));
      ProductCount(Span(s - 11, s - 8), Span(0, 6));
      ProductCount(Span(0, 6), Span(s - 11, s - 8));
      assert a !! b;
    }
  }

  ghost function AlignSet(ver: int): set<Pos>
    requires IsVersion(ver)
  {
    var n := NumAlign(ver);
    if n < 2 then {}
    else
      Product(Band(ver, 1, n), Band(ver, 1, n)) + Product({4, 5, 7, 8}, Band(ver, 1, n - 1))
      + Product(Band(ver, 1, n - 1), {4, 5, 7, 8})
  }

  lemma {:induction false} AlignMembers(ver: int, q: Pos)
    requires IsVersion(ver)
    ensures q in AlignSet(ver) <==> InAlign(ver, q)
  {
    hide AlignPos, Span, Band, Near, Product;
    var n := NumAlign(ver);
    if n >= 2 {
      BandMembers(ver, 1, n, q.x); BandMembers(ver, 1, n, q.y);
      BandMembers(ver, 1, n - 1, q.x); BandMembers(ver, 1, n - 1, q.y);
    }
  }

  lemma {:induction false} NearBounds(ver: int, b: nat, x: int)
    requires IsVersion(ver) && b <= NumAlign(ver) && Near(ver, 1, b, x)
    ensures 16 <= x <= Size(ver) - 5
    ensures b < NumAlign(ver) ==> x <= Size(ver) - 21
  {
    var i :| 1 <= i < b && Abs(x - AlignPos(ver, i)) <= 2;
    AlignSpacing(ver, i);
  }

  lemma {:induction false} AlignCount(ver: int)
    requires IsVersion(ver)
    ensures |AlignSet(ver)| == if ver == 1 then 0 else (25 * NumAlign(ver) - 10) * NumAlign(ver) - 55
  {
    hide Product, Band, AlignPos;
    var n := NumAlign(ver);
    if n >= 2 {
      var big, small := Band(ver, 1, n), Band(ver, 1, n - 1);
      BandCount(ver, 1, n); BandCount(ver, 1, n - 1);
      BandIsFar(ver, n); BandIsFar(ver, n - 1);
      CrossCount(big, small);
      AlignFormula(n, |big|, |small|);
    }
  }

  lemma {:induction false} CrossCount(big: set<int>, small: set<int>)
    requires (forall x :: x in big ==> x >= 16) && forall x :: x in small ==> x >= 16
    ensures |Product(big, big) + Product({4, 5, 7, 8}, small) + Product(small, {4, 5, 7, 8})|
         == |big| * |big| + 8 * |small|
  {
    hide Product;
    var flank := {4, 5, 7, 8};
    ProductCount(big, big); ProductCount(flank, small); ProductCount(small, flank);
    assert Product(big, big) !! Product(flank, small);
    assert Product(big, big) + Product(flank, small) !! Product(small, flank);
  }

  lemma {:induction false} AlignFormula(n: nat, b: nat, m: nat)
    requires b == 5 * (n - 1) && m == 5 * (n - 2)
    ensures b * b + 8 * m == (25 * n - 10) * n - 55
  {
  }

  lemma {:induction false} BandIsFar(ver: int, b: nat)
    requires IsVersion(ver) && b <= NumAlign(ver)
    ensures forall x :: x in Band(ver, 1, b) ==> x >= 16
  {
    hide Band, AlignPos;
    forall x | x in Band(ver, 1, b) ensures x >= 16 {
      BandMembers(ver, 1, b, x); NearBounds(ver, b, x);
    }
  }

  // ---------- all reserved modules ----------

  ghost predicate Reserved(ver: int, q: Pos)
    requires IsVersion(ver)
  {
    var s := Size(ver);
    InFinder(s, q) || InTiming(s, q) || InAlign(ver, q) || InFormat(s, q) || InVersion(ver, q)
  }

  ghost function ReservedSet(ver: int): set<Pos>
    requires IsVersion(ver)
  {
    var s := Size(ver);
    FinderSet(s) + TimingSet(s) + AlignSet(ver) + FormatSet(s) + VersionSet(ver)
  }

  /** Alignment patterns keep clear of every other pattern. */
  lemma {:induction false} AlignIsApart(ver: int, q: Pos)
    requires IsVersion(ver) && InAlign(ver, q)
    ensures Inside(q, Size(ver))
    ensures !InFinder(Size(ver), q) && !InTiming(Size(ver), q)
    ensures !InFormat(Size(ver), q) && !InVersion(ver, q)
  {
    var n := NumAlign(ver);
    if Near(ver, 1, n, q.x) && Near(ver, 1, n, q.y) {
      NearBounds(ver, n, q.x); NearBounds(ver, n, q.y);
    } else if Flank(q.x) && Near(ver, 1, n - 1, q.y) {
      NearBounds(ver, n - 1, q.y);
    } else {
      NearBounds(ver, n - 1, q.x);
    }
  }

  lemma {:induction false} OthersAreApart(ver: int, q: Pos)
    requires IsVersion(ver)
    ensures var s := Size(ver);
            && !(InFinder(s, q) && InTiming(s, q))
            && !(InFinder(s, q) && InFormat(s, q))
            && !(InFinder(s, q) && InVersion(ver, q))
            && !(InTiming(s, q) && InFormat(s, q))
            && !(InTiming(s, q) && InVersion(ver, q))
            && !(InFormat(s, q) && InVersion(ver, q))
  {
  }

  lemma {:induction false} ReservedCount(ver: int)
    requires IsVersion(ver)
    ensures |ReservedSet(ver)| == Size(ver) * Size(ver) - NumRawDataModules(ver)
  {
    var s := Size(ver);
    var f, t, a, m, v := FinderSet(s), TimingSet(s), AlignSet(ver), FormatSet(s), VersionSet(ver);
    FinderCount(s); TimingCount(s); AlignCount(ver); FormatCount(s); VersionCount(ver);
    forall q ensures !(q in f && q in t) && !(q in f + t && q in a) && !(q in f + t + a && q in m)
                  && !(q in f + t + a + m && q in v)
    {
      OthersAreApart(ver, q);
      AlignMembers(ver, q);
      if InAlign(ver, q) {
        AlignIsApart(ver, q);
      }
    }
    assert f !! t && f + t !! a && f + t + a !! m && f + t + a + m !! v;
    CountFormula(ver);
  }

  lemma {:induction false} CountFormula(ver: int)
    requires IsVersion(ver)
    ensures var s, n := Size(ver), NumAlign(ver);
            192 + 2 * (s - 16) + (if ver == 1 then 0 else (25 * n - 10) * n - 55) + 31 + (if ver < 7 then 0 else 36)
            == s * s - NumRawDataModules(ver)
  {
    var s := Size(ver);
    assert s * s == 16 * ver * ver + 136 * ver + 289;
    assert (16 * ver + 128) * ver == 16 * ver * ver + 128 * ver;
  }

  // ---------- the reservation grid ----------

  function Blank(size: nat): (g: Grid)
    ensures Square(g, size)
    ensures forall q :: Inside(q, size) ==> !At(g, q)
  {
    seq(size, _ => seq(size, _ => false))
  }

  /** Which modules the function patterns reserve. */
  function FunctionGrid(ver: int, ecl: Ecc): (fn: Grid)
    requires IsVersion(ver)
    ensures Square(fn, Size(ver))
  {
    MarkAll(Blank(Size(ver)), FunctionShapes(ver, ecl, 0))
  }

  /** The alignment pattern with indices `i` and `j` is drawn and covers `q`. */
  predicate AlignAt(ver: int, i: int, j: int, q: Pos)
    requires IsVersion(ver)
  {
    var n := NumAlign(ver);
    && 0 <= i < n && 0 <= j < n && !Corner(n, i, j)
    && Abs(q.x - AlignPos(ver, i)) <= 2 && Abs(q.y - AlignPos(ver, j)) <= 2
  }

  lemma {:induction false} AlignShapesCover(ver: int, q: Pos)
    requires IsVersion(ver)
    ensures (exists s :: s in AlignRows(AlignPositions(ver), NumAlign(ver)) && Covers(s, Size(ver), q))
       <==> exists i, j :: AlignAt(ver, i, j, q)
  {
    hide AlignPos;
    var a, n := AlignPositions(ver), NumAlign(ver);
    var rows := AlignRows(a, n);
    if s :| s in rows && Covers(s, Size(ver), q) {
      AlignRowsMembers(a, n, s);
      var i, k :| i < n && IsAlign(a, i, k, s);
      assert AlignAt(ver, i, k, q);
    }
    if i, j :| AlignAt(ver, i, j, q) {
      var s := Alignment(a[i], a[j]);
      assert IsAlign(a, i, j, s);
      AlignRowsMembers(a, n, s);
      assert s in rows && Covers(s, Size(ver), q);
    }
  }

  lemma {:induction false} FirstAlignPos(ver: int)
    requires IsVersion(ver) && NumAlign(ver) > 0
    ensures AlignPos(ver, 0) == 6
  {
  }

  /** Apart from timing modules, the alignment patterns cover `InAlign`. */
  lemma {:induction false} AlignIsDrawn(ver: int, q: Pos)
    requires IsVersion(ver) && InAlign(ver, q)
    ensures exists i, j :: AlignAt(ver, i, j, q)
  {
    hide AlignPos;
    var n := NumAlign(ver);
    FirstAlignPos(ver);
    if Near(ver, 1, n, q.x) && Near(ver, 1, n, q.y) {
      var i :| 1 <= i < n && Abs(q.x - AlignPos(ver, i)) <= 2;
      var j :| 1 <= j < n && Abs(q.y - AlignPos(ver, j)) <= 2;
      assert AlignAt(ver, i, j, q);
    } else if Flank(q.x) && Near(ver, 1, n - 1, q.y) {
      var j :| 1 <= j < n - 1 && Abs(q.y - AlignPos(ver, j)) <= 2;
      assert AlignAt(ver, 0, j, q);
    } else {
      var i :| 1 <= i < n - 1 && Abs(q.x - AlignPos(ver, i)) <= 2;
      assert AlignAt(ver, i, 0, q);
    }
  }

  lemma {:induction false} DrawnIsAlign(ver: int, i: int, j: int, q: Pos)
    requires IsVersion(ver) && AlignAt(ver, i, j, q)
    ensures InAlign(ver, q) || q.x == 6 || q.y == 6
  {
    hide AlignPos;
    var n := NumAlign(ver);
    FirstAlignPos(ver);
    if i == 0 {
      assert Near(ver, 1, n - 1, q.y);
    } else if j == 0 {
      assert Near(ver, 1, n - 1, q.x);
    } else {
      assert Near(ver, 1, n, q.x) && Near(ver, 1, n, q.y);
    }
  }

  /** The function patterns reserve exactly the finder, timing, alignment, format and version modules. */
  lemma {:induction false} FunctionGridAt(ver: int, ecl: Ecc, q: Pos)
    requires IsVersion(ver) && Inside(q, Size(ver))
    ensures At(FunctionGrid(ver, ecl), q) <==> Reserved(ver, q)
  {
    hide AlignPos, AlignRows, Near, FormatWord, VersionWord, MarkAll;
    var size := Size(ver);
    var shapes := FunctionShapes(ver, ecl, 0);
    MarkAllAt(Blank(size), shapes, q);
    AlignShapesCover(ver, q);
    ShapesCover(ver, ecl, q);
    if InAlign(ver, q) {
      AlignIsDrawn(ver, q);
    }
    if i, j :| AlignAt(ver, i, j, q) {
      DrawnIsAlign(ver, i, j, q);
    }
  }

  /** Some function shape covers `q`, kind by kind. */
  lemma {:induction false} ShapesCover(ver: int, ecl: Ecc, q: Pos)
    requires IsVersion(ver) && Inside(q, Size(ver))
    ensures (exists s :: s in FunctionShapes(ver, ecl, 0) && Covers(s, Size(ver), q))
       <==> (|| q.x == 6 || q.y == 6
             || InFinder(Size(ver), q)
             || (exists s :: s in AlignRows(AlignPositions(ver), NumAlign(ver)) && Covers(s, Size(ver), q))
             || InFormat(Size(ver), q)
             || InVersion(ver, q))
  {
    hide AlignPos, AlignRows, FormatWord, VersionWord, FormatIndex, VersionIndex;
    var size := Size(ver);
    var rows := AlignRows(AlignPositions(ver), NumAlign(ver));
    var word := Format(FormatWord(ecl, 0));
    var shapes := FunctionShapes(ver, ecl, 0);
    assert forall s :: s in shapes <==>
      s == Timing || s in Finders(size) || s in rows || s == word || s in VersionShapes(ver);
    assert Covers(Timing, size, q) <==> q.x == 6 || q.y == 6;
    assert Covers(word, size, q) <==> InFormat(size, q);
    FindersCover(size, q);
    if ver >= 7 {
      assert Version(VersionWord(ver)) in VersionShapes(ver);
    }
  }

  lemma {:induction false} FindersCover(size: nat, q: Pos)
    requires size >= 21 && Inside(q, size)
    ensures (exists s :: s in Finders(size) && Covers(s, size, q)) <==> InFinder(size, q)
  {
    var f := Finders(size);
    assert f[0] in f && f[1] in f && f[2] in f;
    assert Covers(f[0], size, q) <==> q.x < 8 && q.y < 8;
    assert Covers(f[1], size, q) <==> size - 8 <= q.x && q.y < 8;
    assert Covers(f[2], size, q) <==> q.x < 8 && size - 8 <= q.y;
  }

  lemma {:induction false} Column6IsReserved(ver: int, ecl: Ecc)
    requires IsVersion(ver)
    ensures Column6Reserved(FunctionGrid(ver, ecl))
  {
    hide FunctionGrid;
    forall y | 0 <= y < Size(ver) ensures At(FunctionGrid(ver, ecl), Pos(6, y)) {
      FunctionGridAt(ver, ecl, Pos(6, y));
    }
  }

  lemma {:induction false} ReservedIsInside(ver: int, q: Pos)
    requires IsVersion(ver) && Reserved(ver, q)
    ensures Inside(q, Size(ver))
  {
    if InAlign(ver, q) {
      AlignIsApart(ver, q);
    }
  }

  /** What is left for codewords has exactly the size the encoder computes from the version alone. */
  lemma {:induction false} FreeModules(ver: int, ecl: Ecc)
    requires IsVersion(ver)
    ensures |Unreserved(FunctionGrid(ver, ecl))| == NumRawDataModules(ver)
  {
    hide FunctionGrid, Reserved, ReservedSet, NumRawDataModules, Product, Span;
    var s, fn := Size(ver), FunctionGrid(ver, ecl);
    var all, r, u := Product(Span(0, s), Span(0, s)), ReservedSet(ver), Unreserved(fn);
    ReservedCount(ver);
    ProductCount(Span(0, s), Span(0, s));
    forall q ensures (q in u <==> q in all && q !in r) && (q in r ==> q in all) {
      ReservedMembers(ver, q);
      if q in r {
        ReservedIsInside(ver, q);
      }
      if Inside(q, s) {
        FunctionGridAt(ver, ecl, q);
        assert Pos(q.x, q.y) == q;
      }
    }
    assert all == u + r && u !! r;
  }

  lemma {:induction false} ReservedMembers(ver: int, q: Pos)
    requires IsVersion(ver)
    ensures q in ReservedSet(ver) <==> Reserved(ver, q)
  {
    hide Near, AlignSet, InAlign, FormatIndex, VersionIndex;
    AlignMembers(ver, q);
    FormatCount(Size(ver));
  }
}
