/** What a finished symbol looks like outside its data area, module by module. */
module SymbolLook {
  import opened Bits
  import opened Grids
  import opened Tables
  import opened Interleaving
  import opened FormatInfo
  import opened Patterns
  import opened Zigzag
  import opened DataArea
  import opened Masking
  import opened Symbol

  // ---------- reserved modules keep what was drawn ----------

  lemma {:induction false} ReservedKeepsDrawn(base: Grid, fn: Grid, ecl: Ecc, codewords: seq<Byte>, m: nat, q: Pos)
    requires HasRoom(fn, |codewords|) && Square(base, |fn|) && Inside(q, |fn|) && At(fn, q)
    ensures At(SymbolGrid(base, fn, ecl, codewords, m), q) ==
            if InFormat(|fn|, q) then Colour(Format(FormatWord(ecl, m)), |fn|, q) else At(base, q)
  {
    hide Filled, DataPath, FormatWord, FormatIndex, Invert, GetBit;
    var path := DataPath(fn);
    FilledAt(base, fn, codewords);
    NotOnPath(fn, q);
    assert q !in path[..8 * |codewords|];
  }

  lemma {:induction false} NotOnPath(fn: Grid, q: Pos)
    requires |fn| % 2 == 1 && |fn| > 8 && Square(fn, |fn|) && Inside(q, |fn|) && At(fn, q)
    ensures q !in DataPath(fn)
  {
  }

  /** A module shows what was drawn, or its bit of the format word. */
  predicate Shows(g: Grid, drawn: Grid, word: nat, q: Pos)
    requires Square(g, |g|) && Square(drawn, |g|) && Inside(q, |g|)
  {
    At(g, q) == if InFormat(|g|, q) then Colour(Format(word), |g|, q) else At(drawn, q)
  }

  /** The finished symbol at a reserved module. */
  lemma {:induction false} FinalAt(ver: int, ecl: Ecc, data: seq<Byte>, m: nat, q: Pos)
    requires IsVersion(ver) && |data| == NumDataCodewords(ver, ecl) && Inside(q, Size(ver)) && Reserved(ver, q)
    ensures Shows(FinalGrid(ver, ecl, data, m), Drawn(ver, ecl), FormatWord(ecl, m), q)
  {
    hide FunctionGrid, Drawn, SymbolGrid, WithEcc, LayoutOf, NumDataCodewords, NumRawDataModules, FormatWord,
      FormatIndex, HasRoom, CanPlace, Reserved, GetBit;
    FunctionGridHasRoom(ver, ecl);
    FunctionGridAt(ver, ecl, q);
    var codewords := WithEcc(LayoutOf(ver, ecl), data);
    ReservedKeepsDrawn(Drawn(ver, ecl), FunctionGrid(ver, ecl), ecl, codewords, m, q);
  }

  // ---------- format bits ----------

  /** Where bit `i` of a format word stands in the second copy. */
  function SecondPos(size: nat, i: nat): (p: Pos)
    requires size >= 21 && i < 15
    ensures Inside(p, size)
  {
    if i <= 7 then Pos(size - 1 - i, 8) else Pos(8, size - 15 + i)
  }

  /** Bit `i` of a format word stands in both copies. */
  ghost predicate FormatShown(g: Grid, word: nat, i: nat)
    requires Square(g, |g|) && |g| >= 21 && i < 15
  {
    var bit := GetBit(word, i);
    && (i <= 5 ==> At(g, Pos(8, i)) == bit)
    && (i == 6 ==> At(g, Pos(8, 7)) == bit)
    && (i == 7 ==> At(g, Pos(8, 8)) == bit)
    && (i == 8 ==> At(g, Pos(7, 8)) == bit)
    && (i >= 9 ==> At(g, Pos(14 - i, 8)) == bit)
    && At(g, SecondPos(|g|, i)) == bit
  }

  /** Both copies of the format word, bit by bit, and the module that is always black. */
  lemma {:induction false} FormatLooks(ver: int, ecl: Ecc, data: seq<Byte>, m: nat, i: nat)
    requires IsVersion(ver) && |data| == NumDataCodewords(ver, ecl) && i < 15
    ensures FormatShown(FinalGrid(ver, ecl, data, m), FormatWord(ecl, m), i)
    ensures At(FinalGrid(ver, ecl, data, m), Pos(8, Size(ver) - 8))
  {
    hide FinalGrid, Drawn, NumDataCodewords, FormatWord, GetBit, Reserved;
    var s := Size(ver);
    FormatIsReserved(ver);
    FinalAt(ver, ecl, data, m, FormatPos(i));
    FinalAt(ver, ecl, data, m, SecondPos(s, i));
    FinalAt(ver, ecl, data, m, Pos(8, s - 8));
  }

  lemma {:induction false} FormatIsReserved(ver: int)
    requires IsVersion(ver)
    ensures forall q :: InFormat(Size(ver), q) ==> Reserved(ver, q)
  {
  }

  /** The bits at given places, the highest first. */
  function BitsAt(g: Grid, places: seq<Pos>): (bits: seq<bool>)
    requires Square(g, |g|) && forall p :: p in places ==> Inside(p, |g|)
    ensures |bits| == |places|
  {
    seq(|places|, k requires 0 <= k < |places| => At(g, places[|places| - 1 - k]))
  }

  /** Bits that show a word, read together, are that word. */
  lemma {:induction false} BitsAreWord(g: Grid, places: seq<Pos>, word: nat)
    requires Square(g, |g|) && word < Pow2(|places|)
    requires forall i :: 0 <= i < |places| ==> Inside(places[i], |g|) && ShowsBit(g, places[i], word, i)
    ensures FromBits(BitsAt(g, places)) == word
  {
    hide GetBit, FromBits, ToBits, Pow2, At;
    var n, bits := |places|, BitsAt(g, places);
    forall k | 0 <= k < n ensures bits[k] == ToBits(word, n)[k] {
      ToBitsIndex(word, n, k);
      assert ShowsBit(g, places[n - 1 - k], word, n - 1 - k);
    }
    assert bits == ToBits(word, n);
    FromToBits(word, n);
  }

  /** A module shows bit `i` of a word. */
  predicate ShowsBit(g: Grid, q: Pos, word: nat, i: nat)
    requires Square(g, |g|) && Inside(q, |g|)
  {
    At(g, q) == GetBit(word, i)
  }

  function SecondPlaces(size: nat): (places: seq<Pos>)
    requires size >= 21
    ensures |places| == 15 && forall i :: 0 <= i < 15 ==> Inside(places[i], size)
  {
    seq(15, i requires 0 <= i < 15 => SecondPos(size, i))
  }

  /** The second copy of the format word, as a reader sees it. */
  lemma {:induction false} ReadsSecondFormat(ver: int, ecl: Ecc, data: seq<Byte>, m: nat)
    requires IsVersion(ver) && |data| == NumDataCodewords(ver, ecl) && m < 8
    ensures FromBits(BitsAt(FinalGrid(ver, ecl, data, m), SecondPlaces(Size(ver)))) == FormatWord(ecl, m)
  {
    hide FinalGrid, NumDataCodewords, FormatWord, GetBit, FromBits, Pow2, BitsAt, At;
    var places := SecondPlaces(Size(ver));
    forall i | 0 <= i < 15 ensures ShowsBit(FinalGrid(ver, ecl, data, m), places[i], FormatWord(ecl, m), i) {
      FormatLooks(ver, ecl, data, m, i);
    }
    FormatWordReads(ecl, m);
    Powers();
    BitsAreWord(FinalGrid(ver, ecl, data, m), places, FormatWord(ecl, m));
  }

  // ---------- what was drawn ----------

  /** The last place of a shape that occurs in a list. */
  lemma {:induction false} LastPlace(shapes: seq<Shape>, s: Shape) returns (k: nat)
    requires s in shapes
    ensures k < |shapes| && shapes[k] == s && forall i :: k < i < |shapes| ==> shapes[i] != s
  {
    var n := |shapes| - 1;
    if shapes[n] == s {
      k := n;
    } else {
      assert shapes == shapes[..n] + [shapes[n]];
      k := LastPlace(shapes[..n], s);
    }
  }

  /** If all shapes from a shape on that cover a module are that shape, it has the colour of that shape. */
  lemma {:induction false} DrawnAs(ver: int, ecl: Ecc, before: seq<Shape>, after: seq<Shape>, s: Shape, q: Pos)
    requires IsVersion(ver) && Inside(q, Size(ver)) && before + after == FunctionShapes(ver, ecl, 0)
    requires s in after && Covers(s, Size(ver), q)
    requires forall t :: t in after && Covers(t, Size(ver), q) ==> t == s
    ensures At(Drawn(ver, ecl), q) == Colour(s, Size(ver), q)
  {
    hide FunctionShapes, Covers, Colour, PaintAll;
    var shapes := before + after;
    var k := LastPlace(after, s);
    assert shapes[|before| + k] == s;
    forall i | |before| + k < i < |shapes| ensures !Covers(shapes[i], Size(ver), q) {
      assert shapes[i] == after[i - |before|] && shapes[i] in after;
    }
    PaintAllAt(Blank(Size(ver)), shapes, q, |before| + k);
  }

  /** Where an alignment pattern is, no finder, format or version module is. */
  lemma {:induction false} AlignKeepsClear(ver: int, i: int, j: int, q: Pos)
    requires IsVersion(ver) && AlignAt(ver, i, j, q)
    ensures Inside(q, Size(ver)) && !InFinder(Size(ver), q) && !InFormat(Size(ver), q) && !InVersion(ver, q)
  {
    hide AlignPos;
    var n := NumAlign(ver);
    FirstAlignPos(ver);
    if i > 0 {
      AlignSpacing(ver, i);
    }
    if j > 0 {
      AlignSpacing(ver, j);
    }
  }

  /** Alignment patterns do not overlap. */
  lemma {:induction false} AlignAtUnique(ver: int, i: int, j: int, k: int, l: int, q: Pos)
    requires IsVersion(ver) && AlignAt(ver, i, j, q) && AlignAt(ver, k, l, q)
    ensures i == k && j == l
  {
    hide AlignPos;
    if i < k {
      AlignOrdered(ver, i, k);
    } else if k < i {
      AlignOrdered(ver, k, i);
    }
    if j < l {
      AlignOrdered(ver, j, l);
    } else if l < j {
      AlignOrdered(ver, l, j);
    }
  }

  lemma {:induction false} AlignShapeAt(ver: int, t: Shape, q: Pos) returns (i: int, j: int)
    requires IsVersion(ver) && t in AlignRows(AlignPositions(ver), NumAlign(ver)) && Covers(t, Size(ver), q)
    ensures AlignAt(ver, i, j, q) && t == Alignment(AlignPos(ver, i), AlignPos(ver, j))
  {
    hide AlignPos;
    var a, n := AlignPositions(ver), NumAlign(ver);
    AlignRowsMembers(a, n, t);
    i, j :| i < n && IsAlign(a, i, j, t);
  }

  /** The shapes from the finder patterns on. */
  function AfterTiming(ver: int, ecl: Ecc): seq<Shape>
    requires IsVersion(ver)
  {
    Finders(Size(ver)) + AfterFinders(ver, ecl)
  }

  function AfterFinders(ver: int, ecl: Ecc): seq<Shape>
    requires IsVersion(ver)
  {
    AlignRows(AlignPositions(ver), NumAlign(ver)) + [Format(FormatWord(ecl, 0))] + VersionShapes(ver)
  }

  lemma {:induction false} ShapesInOrder(ver: int, ecl: Ecc)
    requires IsVersion(ver)
    ensures [Timing] + AfterTiming(ver, ecl) == FunctionShapes(ver, ecl, 0)
    ensures [Timing] + Finders(Size(ver)) + AfterFinders(ver, ecl) == FunctionShapes(ver, ecl, 0)
  {
    hide Finders, AlignRows, VersionShapes, FormatWord;
  }

  /** What a shape after the finder patterns that covers `q` can be. */
  lemma {:induction false} AfterFindersCover(ver: int, ecl: Ecc, t: Shape, q: Pos)
    requires IsVersion(ver) && t in AfterFinders(ver, ecl) && Covers(t, Size(ver), q)
    ensures (exists i, j :: AlignAt(ver, i, j, q)) || InFormat(Size(ver), q) || InVersion(ver, q)
  {
    hide AlignRows, FormatWord, FormatIndex, VersionIndex, AlignAt;
    if t in AlignRows(AlignPositions(ver), NumAlign(ver)) {
      var i, j := AlignShapeAt(ver, t, q);
    }
  }

  /** Which finder pattern covers a module. */
  lemma {:induction false} FinderUnique(size: nat, s: Shape, t: Shape, q: Pos)
    requires size >= 21 && Inside(q, size) && s in Finders(size) && t in Finders(size)
    requires Covers(s, size, q) && Covers(t, size, q)
    ensures s == t
  {
  }

  /** A finder pattern: a black centre of 3 by 3, a white ring, a black ring and a white border. */
  lemma {:induction false} FinderLooks(ver: int, ecl: Ecc, data: seq<Byte>, m: nat, corner: int, q: Pos)
    requires IsVersion(ver) && |data| == NumDataCodewords(ver, ecl) && Inside(q, Size(ver)) && 0 <= corner < 3
    requires var cx, cy := if corner == 1 then Size(ver) - 4 else 3, if corner == 2 then Size(ver) - 4 else 3;
             -4 <= q.x - cx <= 4 && -4 <= q.y - cy <= 4
    ensures var cx, cy := if corner == 1 then Size(ver) - 4 else 3, if corner == 2 then Size(ver) - 4 else 3;
            var d := Dist(q, cx, cy);
            At(FinalGrid(ver, ecl, data, m), q) == (d == 0 || d == 1 || d == 3)
  {
    hide FinalGrid, Drawn, NumDataCodewords, FormatWord, FormatIndex, VersionIndex, AlignRows, Near,
      AfterFinders, AlignAt, FunctionShapes;
    var size := Size(ver);
    var s := Finders(size)[corner];
    assert Covers(s, size, q) && InFinder(size, q);
    OthersAreApart(ver, q);
    FinalAt(ver, ecl, data, m, q);
    ShapesInOrder(ver, ecl);
    forall t | t in AfterTiming(ver, ecl) && Covers(t, size, q) ensures t == s {
      if t in Finders(size) {
        FinderUnique(size, s, t, q);
      } else {
        AfterFindersCover(ver, ecl, t, q);
        var i, j :| AlignAt(ver, i, j, q);
        AlignKeepsClear(ver, i, j, q);
      }
    }
    DrawnAs(ver, ecl, [Timing], AfterTiming(ver, ecl), s, q);
  }

  /** An alignment pattern: a black centre, a white ring and a black ring. */
  lemma {:induction false} AlignLooks(ver: int, ecl: Ecc, data: seq<Byte>, m: nat, i: int, j: int, q: Pos)
    requires IsVersion(ver) && |data| == NumDataCodewords(ver, ecl) && AlignAt(ver, i, j, q)
    ensures Inside(q, Size(ver))
    ensures At(FinalGrid(ver, ecl, data, m), q) == (Dist(q, AlignPos(ver, i), AlignPos(ver, j)) != 1)
  {
    hide FinalGrid, Drawn, NumDataCodewords, FormatWord, FormatIndex, VersionIndex, AlignRows, Near,
      FunctionShapes, AlignPos;
    var size, a, n := Size(ver), AlignPositions(ver), NumAlign(ver);
    AlignKeepsClear(ver, i, j, q);
    DrawnIsAlign(ver, i, j, q);
    FinalAt(ver, ecl, data, m, q);
    ShapesInOrder(ver, ecl);
    var s := Alignment(AlignPos(ver, i), AlignPos(ver, j));
    assert IsAlign(a, i, j, s);
    AlignRowsMembers(a, n, s);
    forall t | t in AfterFinders(ver, ecl) && Covers(t, size, q) ensures t == s {
      if t in AlignRows(a, n) {
        var k, l := AlignShapeAt(ver, t, q);
        AlignAtUnique(ver, i, j, k, l, q);
      }
    }
    DrawnAs(ver, ecl, [Timing] + Finders(size), AfterFinders(ver, ecl), s, q);
  }

  /** Timing modules alternate, black at even places. */
  lemma {:induction false} TimingLooks(ver: int, ecl: Ecc, data: seq<Byte>, m: nat, q: Pos)
    requires IsVersion(ver) && |data| == NumDataCodewords(ver, ecl) && Inside(q, Size(ver))
    requires (q.y == 6 && 8 <= q.x < Size(ver) - 8) || (q.x == 6 && 8 <= q.y < Size(ver) - 8)
    requires forall i, j :: !AlignAt(ver, i, j, q)
    ensures At(FinalGrid(ver, ecl, data, m), q) == ((if q.y == 6 then q.x else q.y) % 2 == 0)
  {
    hide FinalGrid, Drawn, NumDataCodewords, FormatWord, FormatIndex, VersionIndex, AlignRows, Near, FunctionShapes,
      AlignAt, AfterFinders;
    var size := Size(ver);
    OthersAreApart(ver, q);
    FinalAt(ver, ecl, data, m, q);
    ShapesInOrder(ver, ecl);
    var shapes := [Timing] + AfterTiming(ver, ecl);
    forall t | t in shapes && Covers(t, size, q) ensures t == Timing {
      if t != Timing {
        if t in Finders(size) {
          FindersCover(size, q);
        } else {
          AfterFindersCover(ver, ecl, t, q);
        }
        assert false;
      }
    }
    assert shapes[0] == Timing && [] + shapes == shapes;
    DrawnAs(ver, ecl, [], shapes, Timing, q);
  }

  // ---------- version bits ----------

  /** Where bit `i` of a version word stands in the upper right block, and in the lower left one. */
  function VersionPos(size: nat, i: nat, upper: bool): (p: Pos)
    requires size >= 45 && i < 18
    ensures Inside(p, size)
  {
    if upper then Pos(size - 11 + i % 3, i / 3) else Pos(i / 3, size - 11 + i % 3)
  }

  /** Both version blocks, bit by bit. */
  lemma {:induction false} VersionLooks(ver: int, ecl: Ecc, data: seq<Byte>, m: nat, i: nat, upper: bool)
    requires IsVersion(ver) && ver >= 7 && |data| == NumDataCodewords(ver, ecl) && i < 18
    ensures ShowsBit(FinalGrid(ver, ecl, data, m), VersionPos(Size(ver), i, upper), VersionWord(ver), i)
  {
    hide FinalGrid, Drawn, NumDataCodewords, VersionWord, GetBit, VersionIndex;
    VersionIndexAt(Size(ver), i, upper);
    VersionAt(ver, ecl, data, m, VersionPos(Size(ver), i, upper));
  }

  lemma {:induction false} VersionIndexAt(s: nat, i: nat, upper: bool)
    requires i < 18 && s >= 45
    ensures VersionIndex(s, VersionPos(s, i, upper)) == i
  {
  }

  lemma {:induction false} VersionAt(ver: int, ecl: Ecc, data: seq<Byte>, m: nat, q: Pos)
    requires IsVersion(ver) && ver >= 7 && |data| == NumDataCodewords(ver, ecl)
    requires Inside(q, Size(ver)) && InVersion(ver, q)
    ensures VersionIndex(Size(ver), q) >= 0
    ensures ShowsBit(FinalGrid(ver, ecl, data, m), q, VersionWord(ver), VersionIndex(Size(ver), q))
  {
    hide FinalGrid, Drawn, NumDataCodewords, VersionWord, GetBit, FormatWord, FormatIndex, AlignRows, Near,
      FunctionShapes, AlignAt;
    var size := Size(ver);
    OthersAreApart(ver, q);
    FinalAt(ver, ecl, data, m, q);
    ShapesInOrder(ver, ecl);
    var s := Version(VersionWord(ver));
    var before := [Timing] + Finders(size) + AlignRows(AlignPositions(ver), NumAlign(ver)) + [Format(FormatWord(ecl, 0))];
    assert before + [s] == FunctionShapes(ver, ecl, 0) by { LastShape(ver, ecl); }
    DrawnAs(ver, ecl, before, [s], s, q);
  }

  lemma {:induction false} LastShape(ver: int, ecl: Ecc)
    requires IsVersion(ver) && ver >= 7
    ensures [Timing] + Finders(Size(ver)) + AlignRows(AlignPositions(ver), NumAlign(ver)) + [Format(FormatWord(ecl, 0))]
            + [Version(VersionWord(ver))] == FunctionShapes(ver, ecl, 0)
  {
    hide Finders, AlignRows, VersionWord, FormatWord;
  }

  function VersionPlaces(size: nat, upper: bool): (places: seq<Pos>)
    requires size >= 45
    ensures |places| == 18 && forall i :: 0 <= i < 18 ==> Inside(places[i], size)
  {
    seq(18, i requires 0 <= i < 18 => VersionPos(size, i, upper))
  }

  /** The version word as a reader sees it in the upper right block, and in the lower left one; its top is the version. */
  lemma {:induction false} ReadsVersion(ver: int, ecl: Ecc, data: seq<Byte>, m: nat, upper: bool)
    requires IsVersion(ver) && ver >= 7 && |data| == NumDataCodewords(ver, ecl)
    ensures FromBits(BitsAt(FinalGrid(ver, ecl, data, m), VersionPlaces(Size(ver), upper))) / 4096 == ver
  {
    hide FinalGrid, NumDataCodewords, VersionWord, GetBit, FromBits, Pow2, BitsAt, At, VersionPos;
    var places := VersionPlaces(Size(ver), upper);
    forall i | 0 <= i < 18 ensures ShowsBit(FinalGrid(ver, ecl, data, m), places[i], VersionWord(ver), i) {
      VersionLooks(ver, ecl, data, m, i, upper);
    }
    VersionWordReads(ver);
    Power18();
    BitsAreWord(FinalGrid(ver, ecl, data, m), places, VersionWord(ver));
  }

  lemma {:induction false} Power18()
    ensures Pow2(18) == 0x40000
  {
    assert Pow2(8) == 256;
    assert Pow2(13) == 8192;
  }

  // ---------- alignment positions ----------

  /** From the second position on the steps are equal: the least even step that covers the way, 26 in version 32. */
  lemma {:induction false} AlignStepIsLeast(ver: int)
    requires IsVersion(ver) && ver >= 2
    ensures AlignStep(ver) % 2 == 0
    ensures ver != 32 ==>
              (AlignStep(ver) - 2) * (NumAlign(ver) - 1) < Size(ver) - 13 <= AlignStep(ver) * (NumAlign(ver) - 1)
    ensures ver == 32 ==> AlignStep(ver) == 26
    ensures forall i :: 1 <= i < NumAlign(ver) - 1 ==> AlignPos(ver, i + 1) - AlignPos(ver, i) == AlignStep(ver)
  {
    hide AlignPos;
    if ver != 32 {
      LeastStep(ver, NumAlign(ver));
    }
    forall i | 1 <= i < NumAlign(ver) - 1 ensures AlignPos(ver, i + 1) - AlignPos(ver, i) == AlignStep(ver) {
      NextAlignPos(ver, i);
    }
  }

  lemma {:induction false} LeastStep(ver: nat, n: nat)
    requires n >= 2
    ensures var step := (ver * 4 + n * 2 + 1) / (n * 2 - 2) * 2;
            step % 2 == 0 && (step - 2) * (n - 1) < 4 * ver + 4 <= step * (n - 1)
  {
    var q := (ver * 4 + n * 2 + 1) / (n * 2 - 2);
    Quotient(ver * 4 + n * 2 + 1, n * 2 - 2);
    Halves(q, n);
  }

  lemma {:induction false} NextAlignPos(ver: int, i: int)
    requires IsVersion(ver) && ver >= 2 && 1 <= i < NumAlign(ver) - 1
    ensures AlignPos(ver, i + 1) - AlignPos(ver, i) == AlignStep(ver)
  {
    hide AlignStep, NumAlign;
    OneLess(NumAlign(ver) - 1 - i, AlignStep(ver));
  }

  lemma {:induction false} OneLess(k: int, step: int)
    ensures k * step == (k - 1) * step + step
  {
  }

  lemma {:induction false} Quotient(x: nat, d: nat)
    requires d > 0
    ensures x / d * d <= x < x / d * d + d
  {
    assert x == x / d * d + x % d;
  }

  lemma {:induction false} Halves(q: int, n: int)
    ensures q * 2 * (n - 1) == q * (n * 2 - 2)
    ensures (q * 2 - 2) * (n - 1) == q * (n * 2 - 2) - (n * 2 - 2)
  {
  }
}
