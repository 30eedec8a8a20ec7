/** The QR Code object: two grids written in place by the drawing and masking methods. */
module QrCodes {
  import opened Results
  import opened Bits
  import opened Grids
  import opened PosSets
  import opened Tables
  import opened Interleaving
  import opened FormatInfo
  import opened Patterns
  import opened Zigzag
  import opened DataArea
  import opened Masking
  import opened Penalty
  import opened Symbol

  /** What a two-dimensional array holds, row by row. */
  ghost function Contents(a: array2<bool>): (g: Grid)
    requires a.Length0 == a.Length1
    reads a
    ensures Square(g, a.Length0)
    ensures forall q :: Inside(q, a.Length0) ==> At(g, q) == a[q.y, q.x]
  {
    seq(a.Length0, y requires 0 <= y < a.Length0 reads a =>
      seq(a.Length1, x requires 0 <= x < a.Length1 reads a => a[y, x]))
  }

  method Write(a: array2<bool>, x: int, y: int, b: bool)
    requires a.Length0 == a.Length1 && Inside(Pos(x, y), a.Length0)
    modifies a
    ensures Contents(a) == Set(old(Contents(a)), Pos(x, y), b)
  {
    hide Contents, Set;
    a[y, x] := b;
    Extensional(Contents(a), Set(old(Contents(a)), Pos(x, y), b), a.Length0);
  }

  class QrCode {
    const version: int
    const size: nat
    const errorCorrectionLevel: Ecc
    var mask: int
    var modules: array2<bool>
    var isFunction: array2<bool>

    ghost predicate Valid()
      reads this
    {
      && IsVersion(version)
      && size == Size(version)
      && modules.Length0 == modules.Length1 == size
      && isFunction.Length0 == isFunction.Length1 == size
      && modules != isFunction
    }

    ghost function Modules(): (g: Grid)
      requires Valid()
      reads this, modules
      ensures Square(g, size)
    {
      Contents(modules)
    }

    ghost function Functions(): (g: Grid)
      requires Valid()
      reads this, isFunction
      ensures Square(g, size)
    {
      Contents(isFunction)
    }

    /** An all-white symbol with nothing reserved. */
    constructor Blank(ver: int, ecl: Ecc)
      requires IsVersion(ver)
      ensures Valid() && version == ver && errorCorrectionLevel == ecl
      ensures fresh(modules) && fresh(isFunction)
      ensures Modules() == DataArea.Blank(size) && Functions() == DataArea.Blank(size)
    {
      version := ver;
      errorCorrectionLevel := ecl;
      size := ver * 4 + 17;
      mask := 0;
      modules := new bool[ver * 4 + 17, ver * 4 + 17]((_, _) => false);
      isFunction := new bool[ver * 4 + 17, ver * 4 + 17]((_, _) => false);
      new;
      Extensional(Modules(), DataArea.Blank(size), size);
      Extensional(Functions(), DataArea.Blank(size), size);
    }

    /** Sets the colour of a module and reserves it. */
    method SetFunctionModule(x: int, y: int, isBlack: bool)
      requires Valid() && Inside(Pos(x, y), size)
      modifies modules, isFunction
      ensures Modules() == Set(old(Modules()), Pos(x, y), isBlack)
      ensures Functions() == Set(old(Functions()), Pos(x, y), true)
    {
      hide Contents, Set;
      Write(modules, x, y, isBlack);
      Write(isFunction, x, y, true);
    }

    /** Draws a finder pattern with its separator around (x, y), as far as it is inside the grid. */
    method DrawFinderPattern(x: int, y: int)
      requires Valid()
      modifies modules, isFunction
      ensures Modules() == Paint(old(Modules()), Finder(x, y))
      ensures Functions() == Mark(old(Functions()), Finder(x, y))
    {
      hide Contents, Set, Paint, Mark, PaintedBefore, MarkedBefore, NothingBetween, Precedes;
      ghost var s, g0, fn0 := Finder(x, y), Modules(), Functions();
      DiscGeometry(size, s, 4, x, y);
      PaintStarts(g0, fn0, s, y - 4, x - 4);
      for dy := -4 to 5
        invariant PaintedBefore(g0, Modules(), s, y + dy, x - 4) && MarkedBefore(fn0, Functions(), s, y + dy, x - 4)
      {
        for dx := -4 to 5
          invariant PaintedBefore(g0, Modules(), s, y + dy, x + dx) && MarkedBefore(fn0, Functions(), s, y + dy, x + dx)
        {
          var dist := Max(Abs(dx), Abs(dy));
          var xx, yy := x + dx, y + dy;
          if 0 <= xx < size && 0 <= yy < size {
            PaintStep(g0, Modules(), fn0, Functions(), s, Pos(xx, yy));
            SetFunctionModule(xx, yy, dist != 2 && dist != 4);
          } else {
            OutsideGeometry(size, s, xx, yy);
            PaintSkips(g0, Modules(), fn0, Functions(), s, yy, xx, yy, xx + 1);
          }
        }
        RowGeometry(size, s, 4, x, y, y + dy);
        PaintSkips(g0, Modules(), fn0, Functions(), s, y + dy, x + 5, y + dy + 1, x - 4);
      }
      PaintEnds(g0, Modules(), fn0, Functions(), s, y + 5, x - 4);
    }

    /** Draws a 5x5 alignment pattern around (x, y). */
    method DrawAlignmentPattern(x: int, y: int)
      requires Valid() && 2 <= x < size - 2 && 2 <= y < size - 2
      modifies modules, isFunction
      ensures Modules() == Paint(old(Modules()), Alignment(x, y))
      ensures Functions() == Mark(old(Functions()), Alignment(x, y))
    {
      hide Contents, Set, Paint, Mark, PaintedBefore, MarkedBefore, NothingBetween, Precedes;
      ghost var s, g0, fn0 := Alignment(x, y), Modules(), Functions();
      DiscGeometry(size, s, 2, x, y);
      PaintStarts(g0, fn0, s, y - 2, x - 2);
      for dy := -2 to 3
        invariant PaintedBefore(g0, Modules(), s, y + dy, x - 2) && MarkedBefore(fn0, Functions(), s, y + dy, x - 2)
      {
        for dx := -2 to 3
          invariant PaintedBefore(g0, Modules(), s, y + dy, x + dx) && MarkedBefore(fn0, Functions(), s, y + dy, x + dx)
        {
          PaintStep(g0, Modules(), fn0, Functions(), s, Pos(x + dx, y + dy));
          SetFunctionModule(x + dx, y + dy, Max(Abs(dx), Abs(dy)) != 1);
        }
        RowGeometry(size, s, 2, x, y, y + dy);
        PaintSkips(g0, Modules(), fn0, Functions(), s, y + dy, x + 3, y + dy + 1, x - 2);
      }
      PaintEnds(g0, Modules(), fn0, Functions(), s, y + 3, x - 2);
    }

    /** Draws the horizontal and vertical timing patterns. */
    method DrawTimingPatterns()
      requires Valid()
      modifies modules, isFunction
      ensures Modules() == Paint(old(Modules()), Timing)
      ensures Functions() == Mark(old(Functions()), Timing)
    {
      hide Contents, Set, Paint, Mark, PaintedOn;
      ghost var g0, fn0, done := Modules(), Functions(), {};
      PaintNone(g0, fn0, Timing);
      for i := 0 to size
        invariant PaintedOn(g0, Modules(), fn0, Functions(), Timing, done)
        invariant forall q :: Inside(q, size) ==> (q in done <==> (q.x == 6 && q.y < i) || (q.y == 6 && q.x < i))
      {
        PaintOne(g0, Modules(), fn0, Functions(), Timing, done, Pos(6, i));
        SetFunctionModule(6, i, i % 2 == 0);
        done := done + {Pos(6, i)};
        PaintOne(g0, Modules(), fn0, Functions(), Timing, done, Pos(i, 6));
        SetFunctionModule(i, 6, i % 2 == 0);
        done := done + {Pos(i, 6)};
      }
      PaintDone(g0, Modules(), fn0, Functions(), Timing, done);
    }

    /** Draws one module of the format word. */
    method DrawFormatBit(x: int, y: int, bits: nat, i: nat, ghost g0: Grid, ghost fn0: Grid, ghost done: set<Pos>)
      requires Valid() && Inside(Pos(x, y), size) && FormatIndex(size, Pos(x, y)) == i
      requires |g0| == size && PaintedOn(g0, Modules(), fn0, Functions(), Format(bits), done)
      modifies modules, isFunction
      ensures PaintedOn(g0, Modules(), fn0, Functions(), Format(bits), done + {Pos(x, y)})
    {
      hide Contents, Set, PaintedOn, FormatIndex;
      PaintOne(g0, Modules(), fn0, Functions(), Format(bits), done, Pos(x, y));
      SetFunctionModule(x, y, i == DARK || GetBit(bits, i));
    }

    /** Draws the first nine format bits around the top left finder pattern. */
    method DrawFirstCorner(bits: nat, ghost g0: Grid, ghost fn0: Grid) returns (ghost done: set<Pos>)
      requires Valid() && |g0| == size && PaintedOn(g0, Modules(), fn0, Functions(), Format(bits), {})
      modifies modules, isFunction
      ensures PaintedOn(g0, Modules(), fn0, Functions(), Format(bits), done)
      ensures forall q :: q in done <==> (q.x == 8 && 0 <= q.y < 9 && q.y != 6) || q == Pos(7, 8)
    {
      hide Contents, PaintedOn, Bch, Xor, GetBit;
      done := {};
      for i := 0 to 6
        invariant PaintedOn(g0, Modules(), fn0, Functions(), Format(bits), done)
        invariant forall q :: q in done <==> q.x == 8 && 0 <= q.y < i
      {
        DrawFormatBit(8, i, bits, i, g0, fn0, done);
        done := done + {Pos(8, i)};
      }
      DrawFormatBit(8, 7, bits, 6, g0, fn0, done);
      done := done + {Pos(8, 7)};
      DrawFormatBit(8, 8, bits, 7, g0, fn0, done);
      done := done + {Pos(8, 8)};
      DrawFormatBit(7, 8, bits, 8, g0, fn0, done);
      done := done + {Pos(7, 8)};
    }

    /** Draws the copy of the format bits around the top left finder pattern. */
    method DrawFirstCopy(bits: nat, ghost g0: Grid, ghost fn0: Grid) returns (ghost done: set<Pos>)
      requires Valid() && |g0| == size && PaintedOn(g0, Modules(), fn0, Functions(), Format(bits), {})
      modifies modules, isFunction
      ensures PaintedOn(g0, Modules(), fn0, Functions(), Format(bits), done)
      ensures forall q :: q in done <==> InInnerFormat(q)
    {
      hide Contents, PaintedOn, Bch, Xor, GetBit;
      done := DrawFirstCorner(bits, g0, fn0);
      for i := 9 to 15
        invariant PaintedOn(g0, Modules(), fn0, Functions(), Format(bits), done)
        invariant forall q :: q in done <==> InInnerFormat(q) && (q.y == 8 && q.x <= 5 ==> q.x > 14 - i)
      {
        DrawFormatBit(14 - i, 8, bits, i, g0, fn0, done);
        done := done + {Pos(14 - i, 8)};
      }
    }

    /** Draws the copy split between the other two finder patterns, and the module that is always black. */
    method DrawSecondCopy(bits: nat, ghost g0: Grid, ghost fn0: Grid, ghost first: set<Pos>) returns (ghost done: set<Pos>)
      requires Valid() && |g0| == size && PaintedOn(g0, Modules(), fn0, Functions(), Format(bits), first)
      modifies modules, isFunction
      ensures PaintedOn(g0, Modules(), fn0, Functions(), Format(bits), done)
      ensures forall q :: q in done <==> q in first || InOuterFormat(size, q)
    {
      hide Contents, PaintedOn, Bch, Xor, GetBit;
      done := first;
      for i := 0 to 8
        invariant PaintedOn(g0, Modules(), fn0, Functions(), Format(bits), done)
        invariant forall q :: q in done <==> q in first || (q.y == 8 && size - 1 - i < q.x < size)
      {
        DrawFormatBit(size - 1 - i, 8, bits, i, g0, fn0, done);
        done := done + {Pos(size - 1 - i, 8)};
      }
      for i := 8 to 15
        invariant PaintedOn(g0, Modules(), fn0, Functions(), Format(bits), done)
        invariant forall q :: q in done <==>
          q in first || (q.y == 8 && size - 8 <= q.x < size) || (q.x == 8 && size - 7 <= q.y < size - 15 + i)
      {
        DrawFormatBit(8, size - 15 + i, bits, i, g0, fn0, done);
        done := done + {Pos(8, size - 15 + i)};
      }
      DrawFormatBit(8, size - 8, bits, DARK, g0, fn0, done);
      done := done + {Pos(8, size - 8)};
    }

    /** Draws both copies of the format bits for mask `msk`, which fit in fifteen bits. */
    method DrawFormatBits(msk: nat)
      requires Valid() && msk < 8
      modifies modules, isFunction
      ensures FormatWord(errorCorrectionLevel, msk) < 0x8000
      ensures Modules() == Paint(old(Modules()), Format(FormatWord(errorCorrectionLevel, msk)))
      ensures Functions() == Mark(old(Functions()), Format(FormatWord(errorCorrectionLevel, msk)))
    {
      hide Contents, Paint, Mark, PaintedOn, Bch, Xor, FormatIndex;
      var data := LevelBits(errorCorrectionLevel) * 8 + msk;
      var rem := ComputeBch(data, 10, FORMAT_GENERATOR, 10);
      var bits := Xor(data * 1024 + rem, FORMAT_MASK);
      assert bits < 0x8000 by { FormatWordReads(errorCorrectionLevel, msk); }
      ghost var g0, fn0 := Modules(), Functions();
      PaintNone(g0, fn0, Format(bits));
      ghost var first := DrawFirstCopy(bits, g0, fn0);
      ghost var done := DrawSecondCopy(bits, g0, fn0, first);
      forall q | Covers(Format(bits), size, q) ensures q in done {
        FormatIsSplit(size, q);
      }
      PaintDone(g0, Modules(), fn0, Functions(), Format(bits), done);
    }

    /** Draws both copies of the version bits, for versions that have them. */
    method DrawVersion()
      requires Valid()
      modifies modules, isFunction
      ensures Modules() == PaintAll(old(Modules()), VersionShapes(version))
      ensures Functions() == MarkAll(old(Functions()), VersionShapes(version))
    {
      hide Contents, Set, Paint, Mark, PaintedOn, Bch;
      if version < 7 {
        return;
      }
      var rem := ComputeBch(version, 12, VERSION_GENERATOR, 12);
      var bits := version * 4096 + rem;
      assert bits == VersionWord(version);
      VersionWordReads(version);
      ghost var s, g0, fn0, done := Version(bits), Modules(), Functions(), {};
      PaintNone(g0, fn0, s);
      for i := 0 to 18
        invariant PaintedOn(g0, Modules(), fn0, Functions(), s, done)
        invariant forall q :: q in done <==> 0 <= VersionIndex(size, q) < i
      {
        var bit := GetBit(bits, i);
        var a := size - 11 + i % 3;
        var b := i / 3;
        PaintOne(g0, Modules(), fn0, Functions(), s, done, Pos(a, b));
        SetFunctionModule(a, b, bit);
        done := done + {Pos(a, b)};
        PaintOne(g0, Modules(), fn0, Functions(), s, done, Pos(b, a));
        SetFunctionModule(b, a, bit);
        done := done + {Pos(b, a)};
      }
      PaintDone(g0, Modules(), fn0, Functions(), s, done);
      PaintAllSnoc(g0, [], s);
      PaintAllSnoc(fn0, [], s);
    }

    /** The ascending alignment pattern coordinates. */
    method GetAlignmentPatternPositions() returns (result: seq<int>)
      requires Valid()
      ensures result == AlignPositions(version)
    {
      if version == 1 {
        return [];
      }
      var numAlign := version / 7 + 2;
      var step := if version == 32 then 26 else (version * 4 + numAlign * 2 + 1) / (numAlign * 2 - 2) * 2;
      assert numAlign == NumAlign(version) && step == AlignStep(version);
      hide AlignStep;
      result := [];
      var pos := size - 7;
      for i := 0 to numAlign - 1
        invariant pos == size - 7 - i * step
        invariant |result| == i && forall k :: 0 <= k < i ==> result[k] == AlignPos(version, numAlign - i + k)
      {
        assert pos == AlignPos(version, numAlign - 1 - i);
        assert (i + 1) * step == i * step + step;
        result := [pos] + result;
        pos := pos - step;
      }
      result := [6] + result;
      assert result == AlignPositions(version);
    }

    /** Draws every alignment pattern that is not on a finder corner. */
    method DrawAlignmentPatterns()
      requires Valid()
      modifies modules, isFunction
      ensures Modules() == PaintAll(old(Modules()), AlignRows(AlignPositions(version), NumAlign(version)))
      ensures Functions() == MarkAll(old(Functions()), AlignRows(AlignPositions(version), NumAlign(version)))
    {
      hide Contents, Paint, Mark, AlignPositions, PaintAll, MarkAll, AlignPos;
      var a := GetAlignmentPatternPositions();
      AlignInside(version);
      ghost var g0, fn0, shapes := Modules(), Functions(), [];
      PaintAllNone(g0); PaintAllNone(fn0);
      for i := 0 to |a|
        invariant shapes == AlignRows(a, i)
        invariant Modules() == PaintAll(g0, shapes) && Functions() == MarkAll(fn0, shapes)
      {
        for j := 0 to |a|
          invariant shapes == AlignRows(a, i) + AlignRow(a, i, j)
          invariant Modules() == PaintAll(g0, shapes) && Functions() == MarkAll(fn0, shapes)
        {
          if !((i == 0 && j == 0) || (i == 0 && j == |a| - 1) || (i == |a| - 1 && j == 0)) {
            DrawAlignmentPattern(a[i], a[j]);
            PaintAllSnoc(g0, shapes, Alignment(a[i], a[j]));
            PaintAllSnoc(fn0, shapes, Alignment(a[i], a[j]));
            shapes := shapes + [Alignment(a[i], a[j])];
          }
        }
      }
    }

    /** Draws and reserves all function patterns, with the format bits of mask 0 for the time being. */
    method DrawFunctionPatterns()
      requires Valid()
      modifies modules, isFunction
      ensures Modules() == PaintAll(old(Modules()), FunctionShapes(version, errorCorrectionLevel, 0))
      ensures Functions() == MarkAll(old(Functions()), FunctionShapes(version, errorCorrectionLevel, 0))
    {
      hide Contents, Paint, Mark, AlignPositions, PaintAll, MarkAll, AlignRows, VersionShapes, FormatWord;
      ghost var g0, fn0 := Modules(), Functions();
      DrawTimingPatterns();
      DrawFinderPattern(3, 3);
      DrawFinderPattern(size - 4, 3);
      DrawFinderPattern(3, size - 4);
      ghost var finders := [Timing, Finder(3, 3), Finder(size - 4, 3), Finder(3, size - 4)];
      assert finders == [Timing] + Finders(size);
      PaintFour(g0, finders[0], finders[1], finders[2], finders[3]);
      PaintFour(fn0, finders[0], finders[1], finders[2], finders[3]);
      ghost var rows := AlignRows(AlignPositions(version), NumAlign(version));
      DrawAlignmentPatterns();
      PaintAllAppend(g0, finders, rows); PaintAllAppend(fn0, finders, rows);
      ghost var word := Format(FormatWord(errorCorrectionLevel, 0));
      DrawFormatBits(0);
      PaintAllSnoc(g0, finders + rows, word); PaintAllSnoc(fn0, finders + rows, word);
      DrawVersion();
      PaintAllAppend(g0, finders + rows + [word], VersionShapes(version));
      PaintAllAppend(fn0, finders + rows + [word], VersionShapes(version));
    }

    /** Applies mask `msk` to every module that is not reserved. */
    method ApplyMask(msk: int) returns (ok: bool)
      requires Valid()
      modifies modules
      ensures ok <==> 0 <= msk <= 7
      ensures Modules() == if ok then Masked(old(Modules()), old(Functions()), msk) else old(Modules())
      ensures Functions() == old(Functions())
    {
      hide Contents, Set, Masked, MaskedBefore;
      if msk < 0 || msk > 7 {
        return false;
      }
      ghost var g0, fn := Modules(), Functions();
      MaskStarts(g0, fn, msk);
      for y := 0 to size
        invariant Functions() == fn && MaskedBefore(g0, Modules(), fn, msk, y, 0)
      {
        for x := 0 to size
          invariant Functions() == fn && MaskedBefore(g0, Modules(), fn, msk, y, x)
        {
          var invert: bool;
          match msk {
            case 0 => invert := (x + y) % 2 == 0;
            case 1 => invert := y % 2 == 0;
            case 2 => invert := x % 3 == 0;
            case 3 => invert := (x + y) % 3 == 0;
            case 4 => invert := (x / 3 + y / 2) % 2 == 0;
            case 5 => invert := x * y % 2 + x * y % 3 == 0;
            case 6 => invert := (x * y % 2 + x * y % 3) % 2 == 0;
            case _ => invert := ((x + y) % 2 + x * y % 3) % 2 == 0;
          }
          assert invert == Invert(msk, x, y);
          MaskStep(g0, Modules(), fn, msk, Pos(x, y));
          assert At(Modules(), Pos(x, y)) == modules[y, x] && At(fn, Pos(x, y)) == isFunction[y, x];
          Write(modules, x, y, modules[y, x] != (invert && !isFunction[y, x]));
        }
        MaskRow(g0, Modules(), fn, msk, y);
      }
      MaskEnds(g0, Modules(), fn, msk);
      return true;
    }

    /** Appends error correction to the data codewords of this symbol and interleaves the blocks. */
    method AddEccAndInterleave(data: seq<Byte>) returns (r: Result<seq<Byte>>)
      requires Valid()
      ensures r.Ok? <==> |data| == NumDataCodewords(version, errorCorrectionLevel)
      ensures r.Ok? ==> r.value == WithEcc(LayoutOf(version, errorCorrectionLevel), data)
      ensures r.Err? ==> r.error == InvalidArgument
    {
      hide NumDataCodewords, LayoutOf, WithEcc;
      if |data| != NumDataCodewords(version, errorCorrectionLevel) {
        return Err(InvalidArgument);
      }
      var result := Interleaving.AddEccAndInterleave(LayoutOf(version, errorCorrectionLevel), data);
      return Ok(result);
    }

    /** Lays bits into one pair of columns, from bit `i0` on. */
    method DrawColumnPair(data: seq<Byte>, right: int, i0: nat, ghost g0: Grid, ghost before: seq<Pos>) returns (i: nat)
      requires Valid() && 1 <= right < size && |g0| == size
      requires PlacedAlong(g0, Modules(), Functions(), BitsOf(data), before, i0)
      modifies modules
      ensures Functions() == old(Functions())
      ensures PlacedAlong(g0, Modules(), Functions(), BitsOf(data), before + PairScan(size, right), i)
    {
      hide Contents, Set, PlacedAlong, PairScan, BitsOf, GetBit;
      ghost var fn, bits := Functions(), BitsOf(data);
      PairScanEnds(before, size, right);
      i := i0;
      for vert := 0 to size
        invariant Functions() == fn
        invariant PlacedAlong(g0, Modules(), fn, bits, before + PairScan(size, right)[..2 * vert], i)
      {
        for j := 0 to 2
          invariant Functions() == fn
          invariant PlacedAlong(g0, Modules(), fn, bits, before + PairScan(size, right)[..2 * vert + j], i)
        {
          var x := right - j;
          var upward := (right + 1) / 2 % 2 == 0;
          var y := if upward then size - 1 - vert else vert;
          PairScanStep(before, size, right, 2 * vert + j);
          PlaceStep(g0, Modules(), fn, bits, before + PairScan(size, right)[..2 * vert + j], i, Pos(x, y));
          assert At(fn, Pos(x, y)) == isFunction[y, x];
          if !isFunction[y, x] && i < |data| * 8 {
            BitsOfIndex(data, i);
            Write(modules, x, y, GetBit(data[i / 8], 7 - i % 8));
            i := i + 1;
          }
        }
      }
    }

    /** Lays the bits of the codewords into the unreserved modules; every bit finds a place. */
    method DrawCodewords(data: seq<Byte>) returns (r: Result<()>)
      requires Valid() && CanPlace(Functions(), NumRawDataModules(version) / 8)
      modifies modules
      ensures r.Ok? <==> |data| == NumRawDataModules(version) / 8
      ensures Functions() == old(Functions())
      ensures Modules() == if r.Ok? then Filled(old(Modules()), old(Functions()), data) else old(Modules())
    {
      hide Contents, CanPlace, Filled, NumRawDataModules, PlacedAlong, Scan, PairScan, BitsOf;
      if |data| != NumRawDataModules(version) / 8 {
        return Err(InvalidArgument);
      }
      ghost var g0, fn, bits := Modules(), Functions(), BitsOf(data);
      var i := 0;
      var right := size - 1;
      ghost var p := 0;
      StartPlacing(g0, fn, bits);
      while right >= 1
        invariant p <= NumPairs(size)
        invariant right == if size - 1 - 2 * p >= 6 then size - 1 - 2 * p else size - 2 - 2 * p
        invariant Functions() == fn && PlacedAlong(g0, Modules(), fn, bits, Scan(size, p), i)
        decreases right
      {
        if right == 6 {
          right := 5;
        }
        ScanStep(size, p);
        i := DrawColumnPair(data, right, i, g0, Scan(size, p));
        right := right - 2;
        p := p + 1;
      }
      EndPlacing(g0, Modules(), fn, data, i);
      return Ok(());
    }

    /** The run and finder penalties of all rows. */
    method ScoreRows() returns (result: int)
      requires Valid()
      ensures result == RowsPenalty(Modules(), size)
    {
      hide LinePenalty, Contents;
      var a := modules;
      result := 0;
      for y := 0 to size
        invariant result == RowsPenalty(Modules(), y)
      {
        var line := seq(size, x requires 0 <= x < size reads a => a[y, x]);
        assert line == Modules()[y] by {
          forall x | 0 <= x < size ensures line[x] == Modules()[y][x] {
            assert At(Modules(), Pos(x, y)) == modules[y, x];
          }
        }
        var n := ScoreLine(line);
        result := result + n;
      }
    }

    /** The run and finder penalties of all columns. */
    method ScoreColumns() returns (result: int)
      requires Valid()
      ensures result == ColumnsPenalty(Modules(), size)
    {
      hide LinePenalty, Contents;
      var a := modules;
      result := 0;
      for x := 0 to size
        invariant result == ColumnsPenalty(Modules(), x)
      {
        var line := seq(size, y requires 0 <= y < size reads a => a[y, x]);
        assert line == Column(Modules(), x) by {
          forall y | 0 <= y < size ensures line[y] == Column(Modules(), x)[y] {
            assert At(Modules(), Pos(x, y)) == modules[y, x];
          }
        }
        var n := ScoreLine(line);
        result := result + n;
      }
    }

    /** The number of 2x2 blocks of one colour. */
    method CountBlocks() returns (count: int)
      requires Valid()
      ensures count == |BlockSet(Modules())|
    {
      hide Contents, BlockSet;
      ghost var g := Modules();
      ghost var blocks := BlockSet(g);
      count := 0;
      assert Before(blocks, 0, 0) == {};
      for y := 0 to size - 1
        invariant count == |Before(blocks, y, 0)|
      {
        for x := 0 to size - 1
          invariant count == |Before(blocks, y, x)|
        {
          BeforeStep(blocks, y, x);
          var color := modules[y, x];
          assert At(g, Pos(x, y)) == color && At(g, Pos(x + 1, y)) == modules[y, x + 1];
          assert At(g, Pos(x, y + 1)) == modules[y + 1, x] && At(g, Pos(x + 1, y + 1)) == modules[y + 1, x + 1];
          if color == modules[y, x + 1] && color == modules[y + 1, x] && color == modules[y + 1, x + 1] {
            count := count + 1;
          }
        }
        BeforeRow(blocks, y, size - 1);
      }
      assert Before(blocks, size - 1, 0) == blocks;
    }

    /** The number of black modules. */
    method CountBlack() returns (black: int)
      requires Valid()
      ensures black == |BlackSet(Modules())|
    {
      hide Contents, BlackSet;
      ghost var g := Modules();
      ghost var blacks := BlackSet(g);
      black := 0;
      assert Before(blacks, 0, 0) == {};
      for y := 0 to size
        invariant black == |Before(blacks, y, 0)|
      {
        for x := 0 to size
          invariant black == |Before(blacks, y, x)|
        {
          BeforeStep(blacks, y, x);
          assert At(g, Pos(x, y)) == modules[y, x];
          if modules[y, x] {
            black := black + 1;
          }
        }
        BeforeRow(blacks, y, size);
      }
      assert Before(blacks, size, 0) == blacks;
    }

    /** The penalty score of the current grid. */
    method GetPenaltyScore() returns (result: int)
      requires Valid()
      ensures result == Score(Modules())
    {
      hide RowsPenalty, ColumnsPenalty, BlockSet, BlackSet, Contents;
      var rows := ScoreRows();
      var columns := ScoreColumns();
      var blocks := CountBlocks();
      var black := CountBlack();
      var total := size * size;
      assert total > 0;
      var k := (Abs(black * 20 - total * 10) + total - 1) / total - 1;
      result := rows + columns + blocks * PENALTY_N2 + k * PENALTY_N4;
    }

    /** Puts on mask `m` and its format bits. */
    method PutOn(m: nat, ghost base: Grid, ghost fn: Grid, ghost codewords: seq<Byte>)
      requires Valid() && m < 8 && HasRoom(fn, |codewords|) && Square(base, |fn|)
      requires Functions() == fn && Unmasked(Modules(), base, fn, codewords)
      modifies modules, isFunction
      ensures Functions() == fn && Modules() == SymbolGrid(base, fn, errorCorrectionLevel, codewords, m)
    {
      hide Contents, HasRoom, Unmasked, SymbolGrid, Paint, Mark, Masked, FormatWord;
      UnmaskedBecomesSymbol(Modules(), base, fn, errorCorrectionLevel, codewords, m);
      FormatReservesNothing(fn, |codewords|, FormatWord(errorCorrectionLevel, m));
      var ok := ApplyMask(m);
      DrawFormatBits(m);
    }

    /** Tries all masks, leaving the data unmasked; the best is the first with the lowest score. */
    method ChooseMask(ghost base: Grid, ghost fn: Grid, ghost codewords: seq<Byte>) returns (msk: int)
      requires Valid() && HasRoom(fn, |codewords|) && Square(base, |fn|)
      requires Functions() == fn && Unmasked(Modules(), base, fn, codewords)
      modifies modules, isFunction
      ensures Functions() == fn && Unmasked(Modules(), base, fn, codewords)
      ensures BestBelow(base, fn, errorCorrectionLevel, codewords, 8, msk)
    {
      hide Contents, HasRoom, Unmasked, SymbolGrid, Masked, Score;
      msk := -1;
      var minPenalty := LONG_MAX;
      for i := 0 to 8
        invariant Functions() == fn && Unmasked(Modules(), base, fn, codewords)
        invariant i == 0 ==> minPenalty == LONG_MAX
        invariant i > 0 ==> && BestBelow(base, fn, errorCorrectionLevel, codewords, i, msk)
                            && minPenalty == Score(SymbolGrid(base, fn, errorCorrectionLevel, codewords, msk))
      {
        PutOn(i, base, fn, codewords);
        var penalty := GetPenaltyScore();
        ScoreFits(Modules());
        if penalty < minPenalty {
          msk := i;
          minPenalty := penalty;
        }
        SymbolBecomesUnmasked(base, fn, errorCorrectionLevel, codewords, i);
        var ok := ApplyMask(i);
      }
    }

    /** Makes the symbol for the given data codewords; mask -1 asks for the best mask. */
    static method Create(ver: int, ecl: Ecc, dataCodewords: seq<Byte>, msk: int) returns (r: Result<QrCode>)
      ensures r.Ok? <==> IsVersion(ver) && -1 <= msk <= 7 && |dataCodewords| == NumDataCodewords(ver, ecl)
      ensures r.Err? ==> r.error == if IsVersion(ver) && -1 <= msk <= 7 then InvalidArgument else DomainError
      ensures r.Ok? ==>
        var q := r.value;
        && fresh(q) && q.version == ver && q.errorCorrectionLevel == ecl && q.size == Size(ver)
        && q.modules.Length0 == q.modules.Length1 == q.size && 0 <= q.mask <= 7
        && Contents(q.modules) == FinalGrid(ver, ecl, dataCodewords, q.mask)
        && (if msk == -1 then IsBestMask(ver, ecl, dataCodewords, q.mask) else q.mask == msk)
    {
      hide Contents, FunctionGrid, Drawn, HasRoom, CanPlace, SymbolGrid, WithEcc, LayoutOf, NumRawDataModules, NumDataCodewords,
        BestBelow, Filled, FunctionShapes, PaintAll, MarkAll;
      if ver < MIN_VERSION || ver > MAX_VERSION {
        return Err(DomainError);
      }
      if msk < -1 || msk > 7 {
        return Err(DomainError);
      }
      var q := new QrCode.Blank(ver, ecl);
      q.DrawFunctionPatterns();
      ghost var base, fn := Drawn(ver, ecl), FunctionGrid(ver, ecl);
      GridsAreDrawn(ver, ecl);
      FunctionGridHasRoom(ver, ecl);
      var all := q.AddEccAndInterleave(dataCodewords);
      if all.Err? {
        return Err(InvalidArgument);
      }
      ghost var codewords := all.value;
      var drawn := q.DrawCodewords(all.value);
      var choice: nat;
      if msk == -1 {
        var best := q.ChooseMask(base, fn, codewords);
        BestIsMask(base, fn, ecl, codewords, best);
        choice := best;
      } else {
        choice := msk;
      }
      q.mask := choice;
      q.PutOn(choice, base, fn, codewords);
      q.isFunction := new bool[0, 0];
      return Ok(q);
    }
  }

  lemma {:induction false} GridsAreDrawn(ver: int, ecl: Ecc)
    requires IsVersion(ver)
    ensures Drawn(ver, ecl) == PaintAll(DataArea.Blank(Size(ver)), FunctionShapes(ver, ecl, 0))
    ensures FunctionGrid(ver, ecl) == MarkAll(DataArea.Blank(Size(ver)), FunctionShapes(ver, ecl, 0))
  {
  }

  lemma {:induction false} BestIsMask(base: Grid, fn: Grid, ecl: Ecc, codewords: seq<Byte>, m: int)
    requires HasRoom(fn, |codewords|) && Square(base, |fn|)
    requires BestBelow(base, fn, ecl, codewords, 8, m)
    ensures 0 <= m < 8
  {
  }

  lemma {:induction false} PaintAllNone(g: Grid)
    requires Square(g, |g|)
    ensures PaintAll(g, []) == g && MarkAll(g, []) == g
  {
  }

  lemma {:induction false} PaintFour(g: Grid, a: Shape, b: Shape, c: Shape, d: Shape)
    requires Square(g, |g|)
    ensures PaintAll(g, [a, b, c, d]) == Paint(Paint(Paint(Paint(g, a), b), c), d)
    ensures MarkAll(g, [a, b, c, d]) == Mark(Mark(Mark(Mark(g, a), b), c), d)
  {
    hide Paint, Mark, PaintAll, MarkAll;
    PaintAllNone(g);
    PaintAllSnoc(g, [], a);
    PaintAllSnoc(g, [a], b);
    PaintAllSnoc(g, [a, b], c);
    PaintAllSnoc(g, [a, b, c], d);
    assert [] + [a] == [a] && [a] + [b] == [a, b] && [a, b] + [c] == [a, b, c] && [a, b, c] + [d] == [a, b, c, d];
  }

  lemma {:induction false} AlignInside(ver: int)
    requires IsVersion(ver)
    ensures forall i :: 0 <= i < NumAlign(ver) ==> 2 <= AlignPositions(ver)[i] < Size(ver) - 2
  {
    forall i | 0 <= i < NumAlign(ver) ensures 2 <= AlignPositions(ver)[i] < Size(ver) - 2 {
      if i >= 1 {
        AlignSpacing(ver, i);
      }
    }
  }

  lemma {:induction false} MaskStarts(g: Grid, fn: Grid, m: nat)
    requires Square(g, |g|) && Square(fn, |g|)
    ensures MaskedBefore(g, g, fn, m, 0, 0)
  {
  }

  lemma {:induction false} StartPlacing(g: Grid, fn: Grid, bits: seq<bool>)
    requires Square(g, |g|) && Square(fn, |g|)
    ensures PlacedAlong(g, g, fn, bits, Scan(|g|, 0), 0)
  {
  }

  lemma {:induction false} PairScanEnds(before: seq<Pos>, size: nat, right: int)
    ensures before + PairScan(size, right)[..0] == before
    ensures PairScan(size, right)[..2 * size] == PairScan(size, right)
  {
  }

  lemma {:induction false} PairScanStep(before: seq<Pos>, size: nat, right: int, t: nat)
    requires t < 2 * size
    ensures before + PairScan(size, right)[..t + 1]
         == before + PairScan(size, right)[..t] + [Step(size, right, t)]
  {
  }

  lemma {:induction false} ScanStep(size: nat, p: nat)
    ensures Scan(size, p + 1) == Scan(size, p) + PairScan(size, Right(size, p))
  {
  }

  lemma {:induction false} EndPlacing(g0: Grid, g: Grid, fn: Grid, data: seq<Byte>, i: nat)
    requires CanPlace(fn, |data|) && Square(g0, |fn|)
    requires PlacedAlong(g0, g, fn, BitsOf(data), FullScan(|fn|), i)
    ensures i == 8 * |data| && g == Filled(g0, fn, data)
  {
    hide Free, Place, BitsOf, FullScan;
  }

  lemma {:induction false} PaintNone(g0: Grid, fn0: Grid, s: Shape)
    requires Square(g0, |g0|) && Square(fn0, |g0|)
    ensures PaintedOn(g0, g0, fn0, fn0, s, {})
  {
  }

  /** The shift-and-reduce loop shared by the format and version words. */
  method ComputeBch(data: nat, k: nat, gen: nat, n: nat) returns (rem: nat)
    requires k >= 1
    ensures rem == Bch(data, k, gen, n)
  {
    hide Xor, Shr;
    rem := data;
    for i := 0 to n
      invariant rem == Bch(data, k, gen, i)
    {
      rem := Xor(2 * rem, Shr(rem, k - 1) * gen);
    }
  }
}
